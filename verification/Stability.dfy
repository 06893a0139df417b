/** Names that stay: what is rendered again after a successful reconcile, and what a trait keeps being called. */
module Stability {
  import opened Wrappers
  import opened Kube
  import opened Names
  import opened Labels
  import opened Cluster
  import opened AppStatus
  import opened Apply
  import opened ApplyOnce
  import opened Rendering
  import opened Reconcile
  import opened RenderedFacts
  import opened GarbageCollection
  import opened Lifecycle
  import opened ApplyOnceRuns
  import Revisions
  import RevisionRuns
  import opened Gating
  import opened Dependencies

  // ---------- what the code relies on ----------

  /** No other entry is about the component of this one. */
  predicate OnlyOneFor(es: seq<ComponentEntry>, i: nat)
    requires i < |es|
  {
    forall l :: 0 <= l < |es| && l != i ==> ComponentOf(es[l]) != ComponentOf(es[i])
  }

  predicate OfType(d: Draft, apiVersion: string, kind: string) {
    d.apiVersion == apiVersion && d.kind == kind
  }

  predicate AloneOfType(e: ComponentEntry, j: nat)
    requires j < |e.traits|
  {
    forall l :: 0 <= l < |e.traits| && l != j ==>
      !OfType(e.traits[l].draft, e.traits[j].draft.apiVersion, e.traits[j].draft.kind)
  }

  /** An unnamed trait is alone of its type in its component; traits their author named may share one. */
  predicate UnnamedTraitsAreAlone(e: ComponentEntry) {
    forall j :: 0 <= j < |e.traits| && e.traits[j].draft.name == "" ==> AloneOfType(e, j)
  }

  /** No input is declared to fill the type or name of its trait. */
  predicate TraitsKeepKeys(e: ComponentEntry) {
    forall j :: 0 <= j < |e.traits| ==> KeepsKey(e.traits[j].inputs)
  }

  /** What names are looked up by is there once and is not filled in. */
  predicate WellFormedSpec(es: seq<ComponentEntry>) {
    forall i :: 0 <= i < |es| ==>
      OnlyOneFor(es, i) && UnnamedTraitsAreAlone(es[i]) && KeepsKey(es[i].inputs) && TraitsKeepKeys(es[i])
  }

  /** Components are stored under their names; a stored revision names its component and itself. */
  predicate WellStored(cat: Catalogue) {
    && (forall name :: name in cat.components ==> cat.components[name].name == name)
    && forall name :: name in cat.revisions && cat.revisions[name].data.Some? ==>
         var c := cat.revisions[name].data.value;
         c.name == ExtractComponentName(name) && c.latest.Some? && c.latest.value.name == name
  }

  /** The revisions the component handler stores are well stored. */
  lemma HandlerStoresWell(w: Revisions.World, name: string)
    requires RevisionRuns.Inv(w) && name in w.store
    ensures w.store[name].data.Some?
    ensures var c := w.store[name].data.value;
            c.name == ExtractComponentName(name) && c.latest.Some? && c.latest.value.name == name
  {
    assert RevisionRuns.StoredWell(w, name);
    ComponentNameRoundTrip(w.component.name, w.store[name].number);
  }

  lemma WellKnown(cat: Catalogue, e: ComponentEntry)
    requires WellStored(cat) && GetComponent(cat, e).Some?
    ensures var c, revision := GetComponent(cat, e).value.0, GetComponent(cat, e).value.1;
            c.name == ComponentOf(e) && (c.latest.Some? ==> revision == c.latest.value.name)
  {
  }

  // ---------- looking names up in the status ----------

  /** The status records ws, whatever texts it carries. */
  predicate Records(status: seq<WorkloadStatus>, ws: seq<Rendered>) {
    |status| == |ws| && forall i :: 0 <= i < |ws| ==> SameRefs(status[i], StatusOf(ws[i]))
  }

  predicate OnlyOneNamed(status: seq<WorkloadStatus>, i: nat)
    requires i < |status|
  {
    forall l :: 0 <= l < |status| && l != i ==> status[l].componentName != status[i].componentName
  }

  lemma {:induction false} WorkloadNameIsFound(status: seq<WorkloadStatus>, i: nat)
    requires i < |status| && OnlyOneNamed(status, i)
    ensures RecordedWorkloadName(status, status[i].componentName) == status[i].reference.key.name
  {
    var n := |status| - 1;
    if i < n { WorkloadNameIsFound(status[..n], i); }
  }

  predicate OnlyOneOfType(ts: seq<WorkloadTrait>, j: nat)
    requires j < |ts|
  {
    forall l :: 0 <= l < |ts| && l != j ==>
      !(ts[l].reference.key.apiVersion == ts[j].reference.key.apiVersion && ts[l].reference.key.kind == ts[j].reference.key.kind)
  }

  lemma {:induction false} TraitIsFound(ts: seq<WorkloadTrait>, j: nat, otherwise: string)
    requires j < |ts| && OnlyOneOfType(ts, j)
    ensures LastTraitName(ts, ts[j].reference.key.apiVersion, ts[j].reference.key.kind, otherwise) == ts[j].reference.key.name
  {
    var n := |ts| - 1;
    if j < n {
      assert forall l :: 0 <= l < n ==> ts[..n][l] == ts[l];
      TraitIsFound(ts[..n], j, otherwise);
    }
  }

  lemma {:induction false} TraitNameIsFound(status: seq<WorkloadStatus>, i: nat, j: nat)
    requires i < |status| && OnlyOneNamed(status, i) && j < |status[i].traits| && OnlyOneOfType(status[i].traits, j)
    ensures var k := status[i].traits[j].reference.key;
            RecordedTraitName(status, status[i].componentName, k.apiVersion, k.kind) == k.name
  {
    var n := |status| - 1;
    var k := status[i].traits[j].reference.key;
    if i < n {
      TraitNameIsFound(status[..n], i, j);
    } else {
      TraitIsFound(status[i].traits, j, RecordedTraitName(status[..n], status[i].componentName, k.apiVersion, k.kind));
    }
  }

  // ---------- rendering once more ----------

  /** The names of one rendered entry. */
  lemma EntryShape(b: Basis, e: ComponentEntry, w: Rendered)
    requires DrawsEntry(b, e, w)
    ensures GetComponent(b.cat, e).Some? && w.componentName == ComponentOf(e) && w.revisionName == GetComponent(b.cat, e).value.1
    ensures |w.traits| == |e.traits|
  {
  }

  /** One rendered trait: its type, and how it got its name. */
  predicate TraitNamed(b: Basis, e: ComponentEntry, w: Rendered, j: nat)
    requires |w.traits| == |e.traits| && j < |e.traits|
  {
    var ct := e.traits[j];
    && DefinitionOf(b.cat, ct).Some?
    && w.traits[j].manifest.key == Key(ct.draft.apiVersion, ct.draft.kind,
         TraitName(b.cat, b.status, ComponentOf(e), ct, DefinitionOf(b.cat, ct).value))
  }

  lemma TraitShape(b: Basis, e: ComponentEntry, w: Rendered)
    requires DrawsEntry(b, e, w) && TraitsKeepKeys(e)
    ensures |w.traits| == |e.traits| && forall j :: 0 <= j < |e.traits| ==> TraitNamed(b, e, w, j)
  {
    RenderedTraitsOf(b.cat, b.spec, b.status, ComponentOf(e), GetComponent(b.cat, e).value.1, e.traits);
  }

  /** Traits that are alone of their type in the entry are so in what is recorded of it. */
  predicate FoundAlike(e: ComponentEntry, st: WorkloadStatus) {
    |st.traits| == |e.traits| && forall j :: 0 <= j < |e.traits| && AloneOfType(e, j) ==> OnlyOneOfType(st.traits, j)
  }

  lemma RecordIsClear(b: Basis, e: ComponentEntry, w: Rendered, st: WorkloadStatus)
    requires DrawsEntry(b, e, w) && TraitsKeepKeys(e) && SameRefs(st, StatusOf(w))
    ensures FoundAlike(e, st)
  {
    EntryShape(b, e, w);
    TraitShape(b, e, w);
    assert |st.traits| == |StatusOf(w).traits| == |w.traits|;
    forall l | 0 <= l < |e.traits|
      ensures OfType(e.traits[l].draft, st.traits[l].reference.key.apiVersion, st.traits[l].reference.key.kind)
    {
      assert TraitNamed(b, e, w, l);
      assert st.traits[l].(status := "").reference == StatusOf(w).traits[l].(status := "").reference;
    }
    forall j | 0 <= j < |e.traits| && AloneOfType(e, j) ensures OnlyOneOfType(st.traits, j) {
      TraitTypesDiffer(e, st, j);
    }
  }

  lemma TraitTypesDiffer(e: ComponentEntry, st: WorkloadStatus, j: nat)
    requires |st.traits| == |e.traits| && j < |e.traits| && AloneOfType(e, j)
    requires forall l :: 0 <= l < |e.traits| ==>
               OfType(e.traits[l].draft, st.traits[l].reference.key.apiVersion, st.traits[l].reference.key.kind)
    ensures OnlyOneOfType(st.traits, j)
  {
    forall l | 0 <= l < |st.traits| && l != j
      ensures !(st.traits[l].reference.key.apiVersion == st.traits[j].reference.key.apiVersion
                && st.traits[l].reference.key.kind == st.traits[j].reference.key.kind)
    {
      assert !OfType(e.traits[l].draft, e.traits[j].draft.apiVersion, e.traits[j].draft.kind);
    }
  }

  /** A status that records what was drawn names its components as the spec does. */
  lemma RecordedOnce(b: Basis, ws: seq<Rendered>, status: seq<WorkloadStatus>, i: nat)
    requires Draws(b, ws) && Records(status, ws) && i < |ws| && OnlyOneFor(b.spec.components, i)
    ensures status[i].componentName == ComponentOf(b.spec.components[i]) && OnlyOneNamed(status, i)
  {
    var es := b.spec.components;
    forall l | 0 <= l < |ws| ensures status[l].componentName == ComponentOf(es[l]) {
      EntryShape(b, es[l], ws[l]);
      RecordedRef(status, ws, l);
    }
  }

  /** A trait rendered again from the recorded status gets the name it has. */
  lemma TraitKeepsName(cat: Catalogue, status: seq<WorkloadStatus>, i: nat, j: nat, ct: ComponentTrait, def: TraitDefinition)
    requires i < |status| && j < |status[i].traits| && OnlyOneNamed(status, i)
    requires ct.draft.name == "" ==> OnlyOneOfType(status[i].traits, j)
    requires var k := status[i].traits[j].reference.key;
             OfType(ct.draft, k.apiVersion, k.kind) && k.name != "" && (ct.draft.name != "" ==> ct.draft.name == k.name)
    ensures TraitName(cat, status, status[i].componentName, ct, def) == status[i].traits[j].reference.key.name
  {
    if ct.draft.name == "" { TraitNameIsFound(status, i, j); }
  }

  /** Whether revisions are enabled is a matter of the traits' definitions alone. */
  lemma {:induction false} EnabledByDefinitions(
    cat: Catalogue, app: AppSpec, a: seq<WorkloadStatus>, b: seq<WorkloadStatus>, component: string, revision: string, cts: seq<ComponentTrait>)
    ensures var x, y := RenderTraits(cat, app, a, component, revision, cts), RenderTraits(cat, app, b, component, revision, cts);
            (x.Some? <==> y.Some?) && (x.Some? ==> x.value.revisionEnabled == y.value.revisionEnabled)
  {
    if cts != [] {
      EnabledByDefinitions(cat, app, a, b, component, revision, cts[..|cts| - 1]);
    }
  }

  /** Object k is there with this revision label. */
  predicate Labelled(s: Server, k: Key, revision: string) {
    k in s.objects && Lookup(s.objects[k].body.labels, APP_COMPONENT_REVISION) == revision
  }

  /** Naming a workload again, now that its name is recorded, changes nothing, if the object that kept its name
      before is still there with the label of the revision. */
  lemma InstanceKeepsName(d: Draft, enabled: bool, c: Revisions.Component,
                          before: seq<WorkloadStatus>, s: Server, after: seq<WorkloadStatus>, t: Server)
    requires InstanceName(d, enabled, c, ExistingWorkload(before, s, c.name, d)).Some?
    requires var name := InstanceName(d, enabled, c, ExistingWorkload(before, s, c.name, d)).value;
             && RecordedWorkloadName(after, c.name) == name
             && (c.latest.Some? && Labelled(s, Key(d.apiVersion, d.kind, name), c.latest.value.name) ==>
                   Labelled(t, Key(d.apiVersion, d.kind, name), c.latest.value.name))
    ensures InstanceName(d, enabled, c, ExistingWorkload(after, t, c.name, d))
         == InstanceName(d, enabled, c, ExistingWorkload(before, s, c.name, d))
  {
  }

  /** Attaching a trait that enables revisions: the workload keeps the name it has exactly when it is there with
      the label of the component's latest revision, or is already named after that revision. */
  lemma AttachingKeepsNameExactlyWhen(d: Draft, c: Revisions.Component, status: seq<WorkloadStatus>, t: Server)
    requires d.name == "" && c.latest.Some? && RecordedWorkloadName(status, c.name) != ""
    ensures var name, latest := RecordedWorkloadName(status, c.name), c.latest.value.name;
            InstanceName(d, true, c, ExistingWorkload(status, t, c.name, d)) == Some(name) <==>
              Labelled(t, Key(d.apiVersion, d.kind, name), latest) || name == latest
  {
  }

  // ---------- labels survive a round ----------

  /** No other component renders an object under the key of this one's workload. */
  ghost predicate Unshared(ws: seq<Rendered>, i: nat)
    requires i < |ws|
  {
    forall l :: 0 <= l < |ws| && Contains(ws[l], ws[i].manifest.key) ==> l == i
  }

  /** No input of an object that goes by k is declared to fill its labels. */
  predicate KeepsLabelsOf(e: ComponentEntry, w: Rendered, k: Key)
    requires |e.traits| == |w.traits|
  {
    && (w.manifest.key == k ==> KeepsLabels(e.inputs))
    && forall j :: 0 <= j < |w.traits| && w.traits[j].manifest.key == k ==> KeepsLabels(e.traits[j].inputs)
  }

  /** The workload is rendered once, and its labels are not filled in. */
  ghost predicate KeepsItsLabels(es: seq<ComponentEntry>, ws: seq<Rendered>, i: nat) {
    Aligned(es, ws) && i < |ws| && Unshared(ws, i) && KeepsLabelsOf(es[i], ws[i], ws[i].manifest.key)
  }

  predicate Brings(m: Manifest, k: Key, revision: string) {
    m.key == k ==> BearsRevision(m, revision)
  }

  lemma {:induction false} PuttingKeepsLabel(once: bool, hs: seq<Handed>, objects: Objects, k: Key, revision: string)
    requires k in objects && Lookup(objects[k].body.labels, APP_COMPONENT_REVISION) == revision
    requires forall i :: 0 <= i < |hs| ==> Brings(hs[i].manifest, k, revision)
    ensures var after := PutAll(once, hs, objects);
            k in after && Lookup(after[k].body.labels, APP_COMPONENT_REVISION) == revision
    decreases |hs|
  {
    if hs != [] {
      assert Brings(hs[0].manifest, k, revision);
      PuttingKeepsLabel(once, hs[1..], Put(once, hs[0], objects), k, revision);
    }
  }

  /** An object that is handed over carries the label it brings, whether it is created, patched, replaced or
      skipped. */
  lemma {:induction false} PuttingGivesLabel(once: bool, hs: seq<Handed>, objects: Objects, k: Key, revision: string)
    requires exists i :: 0 <= i < |hs| && hs[i].manifest.key == k
    requires forall i :: 0 <= i < |hs| ==> Brings(hs[i].manifest, k, revision)
    ensures var after := PutAll(once, hs, objects);
            k in after && Lookup(after[k].body.labels, APP_COMPONENT_REVISION) == revision
    decreases |hs|
  {
    assert Brings(hs[0].manifest, k, revision);
    if hs[0].manifest.key == k {
      PuttingKeepsLabel(once, hs[1..], Put(once, hs[0], objects), k, revision);
    } else {
      var i :| 0 <= i < |hs| && hs[i].manifest.key == k;
      assert hs[1..][i - 1] == hs[i];
      PuttingGivesLabel(once, hs[1..], Put(once, hs[0], objects), k, revision);
    }
  }

  lemma {:induction false} WorkloadIsHandedOver(ws: seq<Rendered>, i: nat)
    requires i < |ws| && !ws[i].hasDep
    ensures exists n :: 0 <= n < |HandedOver(ws)| && HandedOver(ws)[n].manifest == ws[i].manifest
  {
    var head := (if ws[0].hasDep then [] else [Handed(ws[0].manifest, true)]) + HandedTraits(ws[0].traits);
    assert HandedOver(ws) == head + HandedOver(ws[1..]);
    if i == 0 {
      assert HandedOver(ws)[0].manifest == ws[0].manifest;
    } else {
      WorkloadIsHandedOver(ws[1..], i - 1);
      var n :| 0 <= n < |HandedOver(ws[1..])| && HandedOver(ws[1..])[n].manifest == ws[1..][i - 1].manifest;
      assert HandedOver(ws)[|head| + n].manifest == ws[i].manifest;
    }
  }

  lemma {:induction false} HandedTraitsAre(ts: seq<RenderedTrait>, h: Handed)
    requires h in HandedTraits(ts)
    ensures exists j :: 0 <= j < |ts| && ts[j].manifest == h.manifest
  {
    if ts[0].hasDep || h != Handed(ts[0].manifest, false) {
      HandedTraitsAre(ts[1..], h);
      var j :| 0 <= j < |ts[1..]| && ts[1..][j].manifest == h.manifest;
      assert ts[j + 1].manifest == h.manifest;
    }
  }

  predicate Offers(w: Rendered, m: Manifest) {
    w.manifest == m || exists j :: 0 <= j < |w.traits| && w.traits[j].manifest == m
  }

  lemma {:induction false} HandedOverAre(ws: seq<Rendered>, h: Handed)
    requires h in HandedOver(ws)
    ensures exists i :: 0 <= i < |ws| && Offers(ws[i], h.manifest)
  {
    if h in HandedTraits(ws[0].traits) {
      HandedTraitsAre(ws[0].traits, h);
      assert Offers(ws[0], h.manifest);
    } else if h in HandedOver(ws[1..]) {
      HandedOverAre(ws[1..], h);
      var i :| 0 <= i < |ws[1..]| && Offers(ws[1..][i], h.manifest);
      assert Offers(ws[i + 1], h.manifest);
    } else {
      assert Offers(ws[0], h.manifest);
    }
  }

  /** Whatever is rendered under a workload's key bears the workload's revision. */
  lemma OfferedBrings(env: Env, app: App, s: Server, ws: seq<Rendered>, i: nat, l: nat, m: Manifest)
    requires RenderFor(env, app, s) == Some(ws) && KeepsItsLabels(app.spec.components, ws, i)
    requires l < |ws| && Offers(ws[l], m)
    ensures Brings(m, ws[i].manifest.key, ws[i].revisionName)
  {
    if m.key == ws[i].manifest.key {
      assert Contains(ws[l], m.key);
      RenderedObjectsAreStamped(env, app, s);
      if m != ws[l].manifest {
        var j :| 0 <= j < |ws[l].traits| && ws[l].traits[j].manifest == m;
        assert Marks(app.spec, ws[l], ws[l].traits[j].manifest, "TRAIT", app.spec.components[l].traits[j].inputs);
      }
    }
  }

  lemma HandedBringLabel(env: Env, app: App, s: Server, ws: seq<Rendered>, i: nat)
    requires RenderFor(env, app, s) == Some(ws) && KeepsItsLabels(app.spec.components, ws, i)
    ensures forall n :: 0 <= n < |HandedOver(ws)| ==> Brings(HandedOver(ws)[n].manifest, ws[i].manifest.key, ws[i].revisionName)
  {
    var hs := HandedOver(ws);
    forall n | 0 <= n < |hs| ensures Brings(hs[n].manifest, ws[i].manifest.key, ws[i].revisionName) {
      HandedOverAre(ws, hs[n]);
      var l :| 0 <= l < |ws| && Offers(ws[l], hs[n].manifest);
      OfferedBrings(env, app, s, ws, i, l, hs[n].manifest);
    }
  }

  /** After a round that renders w_i, its workload carries its revision's label if it did before, or if it was
      not held back. */
  lemma LabelAfterRound(env: Env, w: World, ws: seq<Rendered>, i: nat)
    requires RenderFor(env, w.app, Tick(w.server)) == Some(ws) && Bare(w.app.status)
    requires KeepsItsLabels(w.app.spec.components, ws, i)
    requires Synced(env, w.app, Tick(w.server), ws).result == Done
    requires Labelled(w.server, ws[i].manifest.key, ws[i].revisionName) || !ws[i].hasDep
    ensures Labelled(Synced(env, w.app, Tick(w.server), ws).server, ws[i].manifest.key, ws[i].revisionName)
  {
    var s, c, k := Tick(w.server), ConfigFor(env, w.app), ws[i].manifest.key;
    var hs := HandedOver(ws);
    HandedBringLabel(env, w.app, s, ws, i);
    WorkloadsArePut(c, ws, s);
    DereferenceLeavesObjects(c, w.app.status, ws, ApplyWorkloads(c, ws, s).server);
    if ws[i].hasDep {
      PuttingKeepsLabel(c.once, hs, s.objects, k, ws[i].revisionName);
    } else {
      WorkloadIsHandedOver(ws, i);
      PuttingGivesLabel(c.once, hs, s.objects, k, ws[i].revisionName);
    }
    RenderedIsNeverCollected(env, w.app, s, ws, k);
  }

  // ---------- the fixpoint ----------

  predicate SameNames(a: Rendered, b: Rendered) {
    && a.componentName == b.componentName && a.revisionName == b.revisionName && a.manifest.key == b.manifest.key
    && |a.traits| == |b.traits| && forall j :: 0 <= j < |a.traits| ==> a.traits[j].manifest.key == b.traits[j].manifest.key
  }

  /** One basis after another: the same catalogue and spec, and a status that records what the first one drew. */
  ghost predicate Follows(b: Basis, ws: seq<Rendered>, c: Basis) {
    b.cat == c.cat && b.spec == c.spec && Records(c.status, ws)
  }

  /** Rendering once more from a status that records the first rendering. */
  lemma RenderedAgainAlike(b: Basis, ws: seq<Rendered>, c: Basis, vs: seq<Rendered>, i: nat)
    requires Draws(b, ws) && Draws(c, vs) && Follows(b, ws, c) && WellStored(b.cat) && WellFormedSpec(b.spec.components)
    requires i < |ws|
    requires Labelled(b.server, ws[i].manifest.key, ws[i].revisionName) ==> Labelled(c.server, ws[i].manifest.key, ws[i].revisionName)
    ensures SameNames(ws[i], vs[i])
  {
    EntryShape(b, b.spec.components[i], ws[i]);
    EntryShape(c, c.spec.components[i], vs[i]);
    TraitsAgainAlike(b, ws, c, vs, i);
    WorkloadAgainAlike(b, ws, c, vs, i);
  }

  lemma AllRenderedAgainAlike(b: Basis, ws: seq<Rendered>, c: Basis, vs: seq<Rendered>)
    requires Draws(b, ws) && Draws(c, vs) && Follows(b, ws, c) && WellStored(b.cat) && WellFormedSpec(b.spec.components)
    requires forall i :: 0 <= i < |ws| ==> LabelKept(b.server, c.server, ws[i])
    ensures |vs| == |ws| && forall i :: 0 <= i < |ws| ==> SameNames(ws[i], vs[i])
  {
    forall i | 0 <= i < |ws| ensures SameNames(ws[i], vs[i]) {
      assert LabelKept(b.server, c.server, ws[i]);
      RenderedAgainAlike(b, ws, c, vs, i);
    }
  }

  lemma TraitsAgainAlike(b: Basis, ws: seq<Rendered>, c: Basis, vs: seq<Rendered>, i: nat)
    requires Draws(b, ws) && Draws(c, vs) && Follows(b, ws, c) && WellFormedSpec(b.spec.components) && i < |ws|
    ensures |ws[i].traits| == |vs[i].traits|
    ensures forall j :: 0 <= j < |ws[i].traits| ==> ws[i].traits[j].manifest.key == vs[i].traits[j].manifest.key
  {
    var e, st := b.spec.components[i], c.status[i];
    assert SameRefs(st, StatusOf(ws[i]));
    TraitShape(b, e, ws[i]);
    TraitShape(c, e, vs[i]);
    RecordIsClear(b, e, ws[i], st);
    RecordedOnce(b, ws, c.status, i);
    forall j | 0 <= j < |ws[i].traits| ensures ws[i].traits[j].manifest.key == vs[i].traits[j].manifest.key {
      assert st.traits[j].(status := "").reference == StatusOf(ws[i]).traits[j].(status := "").reference;
      assert TraitNamed(b, e, ws[i], j) && TraitNamed(c, e, vs[i], j);
      TraitKeepsName(b.cat, c.status, i, j, e.traits[j], DefinitionOf(b.cat, e.traits[j]).value);
    }
  }

  lemma RecordedRef(status: seq<WorkloadStatus>, ws: seq<Rendered>, i: nat)
    requires Records(status, ws) && i < |ws|
    ensures status[i].reference.key == ws[i].manifest.key && status[i].componentName == ws[i].componentName
  {
    assert SameRefs(status[i], StatusOf(ws[i]));
    assert status[i].(status := "", traits := []).reference == StatusOf(ws[i]).(status := "", traits := []).reference;
    assert status[i].(status := "", traits := []).componentName == StatusOf(ws[i]).(status := "", traits := []).componentName;
  }

  /** How a rendered workload got its name: its draft d, its component c, and whether revisions are enabled. */
  predicate WorkloadNamed(b: Basis, e: ComponentEntry, w: Rendered, d: Draft, c: Revisions.Component, enabled: bool) {
    var traits := RenderTraits(b.cat, b.spec, b.status, ComponentOf(e), w.revisionName, e.traits);
    && GetComponent(b.cat, e) == Some((c, w.revisionName)) && b.cat.draw(c.spec, e.parameters) == Some(d)
    && w.componentName == ComponentOf(e) && w.revisionEnabled == enabled
    && traits.Some? && traits.value.revisionEnabled == enabled
    && w.manifest.key == Key(d.apiVersion, d.kind, w.manifest.key.name)
    && InstanceName(d, enabled, c, ExistingWorkload(b.status, b.server, c.name, d)) == Some(w.manifest.key.name)
  }

  lemma NamedWorkload(b: Basis, e: ComponentEntry, w: Rendered) returns (d: Draft, c: Revisions.Component, enabled: bool)
    requires DrawsEntry(b, e, w) && KeepsKey(e.inputs)
    ensures WorkloadNamed(b, e, w, d, c, enabled)
  {
    c := GetComponent(b.cat, e).value.0;
    d := b.cat.draw(c.spec, e.parameters).value;
    enabled := w.revisionEnabled;
  }

  lemma WorkloadAgainAlike(b: Basis, ws: seq<Rendered>, c: Basis, vs: seq<Rendered>, i: nat)
    requires Draws(b, ws) && Draws(c, vs) && Follows(b, ws, c) && WellStored(b.cat) && WellFormedSpec(b.spec.components)
    requires i < |ws|
    requires Labelled(b.server, ws[i].manifest.key, ws[i].revisionName) ==> Labelled(c.server, ws[i].manifest.key, ws[i].revisionName)
    ensures ws[i].manifest.key == vs[i].manifest.key
  {
    var e := b.spec.components[i];
    var d, comp, enabled := NamedWorkload(b, e, ws[i]);
    var d2, comp2, enabled2 := NamedWorkload(c, e, vs[i]);
    WellKnown(b.cat, e);
    EnabledByDefinitions(b.cat, b.spec, b.status, c.status, ComponentOf(e), ws[i].revisionName, e.traits);
    RecordedOnce(b, ws, c.status, i);
    RecordedRef(c.status, ws, i);
    WorkloadNameIsFound(c.status, i);
    InstanceKeepsName(d, enabled, comp, b.status, b.server, c.status, c.server);
  }

  lemma SuccessRecords(env: Env, w: World, ws: seq<Rendered>)
    requires Syncing(env, w) && RenderFor(env, w.app, Tick(w.server)) == Some(ws) && Succeeded(env, w, ws)
    ensures var v := Reconciled(env, w);
            && Records(v.app.status, ws) && v.server == Tick(Synced(env, w.app, Tick(w.server), ws).server)
  {
    PatchKeepsReferences(StatusesOf(ws), w.app.status);
  }

  lemma RecordsKeptByTexts(a: seq<WorkloadStatus>, b: seq<WorkloadStatus>, ws: seq<Rendered>)
    requires Records(a, ws) && |a| == |b| && forall i :: 0 <= i < |a| ==> SameRefs(b[i], a[i])
    ensures Records(b, ws)
  {
    forall i | 0 <= i < |ws| ensures SameRefs(b[i], StatusOf(ws[i])) {
      assert SameRefs(b[i], a[i]) && SameRefs(a[i], StatusOf(ws[i]));
      forall j | 0 <= j < |b[i].traits| ensures b[i].traits[j].(status := "") == StatusOf(ws[i]).traits[j].(status := "") {
        assert b[i].traits[j].(status := "") == a[i].traits[j].(status := "");
      }
    }
  }

  /** The round renders ws from a well-formed spec, with workloads whose labels are not filled in, applies it, collects,
      and its status is written. */
  ghost predicate GoodRound(env: Env, w: World, ws: seq<Rendered>) {
    && WellStored(env.cat) && WellFormedSpec(w.app.spec.components)
    && Syncing(env, w) && RenderFor(env, w.app, Tick(w.server)) == Some(ws) && Succeeded(env, w, ws)
    && Bare(w.app.status) && forall i :: 0 <= i < |ws| ==> KeepsItsLabels(w.app.spec.components, ws, i)
  }

  lemma IsGoodRound(env: Env, w: World, ws: seq<Rendered>)
    requires WellStored(env.cat) && WellFormedSpec(w.app.spec.components)
    requires Syncing(env, w) && RenderFor(env, w.app, Tick(w.server)) == Some(ws) && Succeeded(env, w, ws)
    requires Bare(w.app.status) && forall i :: 0 <= i < |ws| ==> KeepsItsLabels(w.app.spec.components, ws, i)
    ensures GoodRound(env, w, ws)
  {
  }

  /** Between two rounds: the spec stays, texts may be written into the status, and rendered workloads that
      carry their revision's label keep it. */
  ghost predicate Meanwhile(w: World, v: World, ws: seq<Rendered>) {
    && v.app.spec == w.app.spec && |v.app.status| == |w.app.status|
    && (forall i :: 0 <= i < |v.app.status| ==> SameRefs(v.app.status[i], w.app.status[i]))
    && forall i :: 0 <= i < |ws| ==> LabelKept(w.server, v.server, ws[i])
  }

  predicate LabelKept(s: Server, t: Server, w: Rendered) {
    Labelled(s, w.manifest.key, w.revisionName) ==> Labelled(t, w.manifest.key, w.revisionName)
  }

  lemma GoodRoundKeepsLabel(env: Env, w: World, ws: seq<Rendered>, i: nat)
    requires GoodRound(env, w, ws) && i < |ws|
    ensures LabelKept(w.server, Reconciled(env, w).server, ws[i])
  {
    SuccessRecords(env, w, ws);
    if Labelled(w.server, ws[i].manifest.key, ws[i].revisionName) {
      LabelAfterRound(env, w, ws, i);
    }
  }

  lemma GoodRoundIsRecorded(env: Env, w: World, ws: seq<Rendered>, v: World)
    requires GoodRound(env, w, ws) && Meanwhile(Reconciled(env, w), v, ws)
    ensures Records(v.app.status, ws) && v.app.spec == w.app.spec
  {
    var after := Reconciled(env, w);
    SuccessRecords(env, w, ws);
    RecordsKeptByTexts(after.app.status, v.app.status, ws);
  }

  lemma GoodRoundKeepsLabels(env: Env, w: World, ws: seq<Rendered>, v: World)
    requires GoodRound(env, w, ws) && Meanwhile(Reconciled(env, w), v, ws)
    ensures forall i :: 0 <= i < |ws| ==> LabelKept(w.server, v.server, ws[i])
  {
    forall i | 0 <= i < |ws| ensures LabelKept(w.server, v.server, ws[i]) {
      GoodRoundKeepsLabel(env, w, ws, i);
      assert LabelKept(Reconciled(env, w).server, v.server, ws[i]);
    }
  }

  lemma RenderedFromRecords(env: Env, w: World, ws: seq<Rendered>, next: Env, v: World, vs: seq<Rendered>)
    requires RenderFor(env, w.app, Tick(w.server)) == Some(ws) && RenderFor(next, v.app, Tick(v.server)) == Some(vs)
    requires env.cat == next.cat && Records(v.app.status, ws) && v.app.spec == w.app.spec
    requires WellStored(env.cat) && WellFormedSpec(w.app.spec.components)
    requires forall i :: 0 <= i < |ws| ==> LabelKept(w.server, v.server, ws[i])
    ensures |vs| == |ws| && forall i :: 0 <= i < |ws| ==> SameNames(ws[i], vs[i])
  {
    RoundDraws(env, w.app, Tick(w.server));
    RoundDraws(next, v.app, Tick(v.server));
    var b, c := BasisOf(env, w.app, Tick(w.server)), BasisOf(next, v.app, Tick(v.server));
    forall i | 0 <= i < |ws| ensures LabelKept(b.server, c.server, ws[i]) {
      assert LabelKept(w.server, v.server, ws[i]);
    }
    AllRenderedAgainAlike(b, ws, c, vs);
  }

  /** After a successful round, whatever others write into the status, and as long as they leave the rendered
      workloads their revision labels, the next round of the same spec renders the same references, however
      dependencies hold objects back this time, and collects nothing. */
  lemma ReconcileIsAFixpoint(env: Env, w: World, ws: seq<Rendered>, next: Env, v: World, vs: seq<Rendered>)
    requires GoodRound(env, w, ws) && Meanwhile(Reconciled(env, w), v, ws)
    requires env.cat == next.cat && RenderFor(next, v.app, Tick(v.server)) == Some(vs)
    ensures |vs| == |ws| && forall i :: 0 <= i < |ws| ==> SameNames(ws[i], vs[i])
    ensures Eligible(v.app.status, RenderedRefs(vs)) == []
  {
    GoodRoundIsRecorded(env, w, ws, v);
    GoodRoundKeepsLabels(env, w, ws, v);
    RenderedFromRecords(env, w, ws, next, v, vs);
    NothingToCollect(v.app.status, ws, vs);
  }

  lemma RecordedIsRendered(status: seq<WorkloadStatus>, ws: seq<Rendered>, vs: seq<Rendered>, r: TypedReference)
    requires Records(status, ws) && |vs| == |ws| && forall i :: 0 <= i < |ws| ==> SameNames(ws[i], vs[i])
    requires Tracked(status, r)
    ensures r.uid == "" && Renders(vs, r.key)
  {
    if TracksAsWorkload(status, r) {
      var i :| 0 <= i < |status| && status[i].reference == r;
      assert SameRefs(status[i], StatusOf(ws[i])) && SameNames(ws[i], vs[i]);
      assert vs[i].manifest.key == r.key;
    } else {
      var i :| 0 <= i < |status| && TracksTrait(status[i].traits, r);
      var j :| 0 <= j < |status[i].traits| && status[i].traits[j].reference == r;
      assert SameRefs(status[i], StatusOf(ws[i])) && SameNames(ws[i], vs[i]);
      assert status[i].traits[j].(status := "").reference == StatusOf(ws[i]).traits[j].(status := "").reference;
      assert vs[i].traits[j].manifest.key == r.key;
      assert RendersTrait(vs[i].traits, r.key);
    }
  }

  lemma NothingToCollect(status: seq<WorkloadStatus>, ws: seq<Rendered>, vs: seq<Rendered>)
    requires Records(status, ws) && |vs| == |ws| && forall i :: 0 <= i < |ws| ==> SameNames(ws[i], vs[i])
    ensures Eligible(status, RenderedRefs(vs)) == []
  {
    forall r ensures !Discarded(status, RenderedRefs(vs), r) {
      if Tracked(status, r) {
        RecordedIsRendered(status, ws, vs, r);
        RenderedRefsAre(vs, r);
      }
    }
    var eligible := Eligible(status, RenderedRefs(vs));
    if eligible != [] {
      EligibleExactly(status, RenderedRefs(vs), eligible[0]);
    }
  }

  // ---------- attaching a trait that enables revisions ----------

  /** The same component at the same revision, with the same parameters. */
  predicate SameWorkload(e: ComponentEntry, f: ComponentEntry) {
    e.componentName == f.componentName && e.revisionName == f.revisionName && e.parameters == f.parameters
  }

  /** After a successful round, an edit that attaches a trait with revisions enabled, at the same revision of the
      component, leaves the workload its name, if the round applied it or it carried its revision's label before; it is
      not renamed after the revision. */
  lemma AttachingKeepsTheWorkload(env: Env, w: World, ws: seq<Rendered>, next: Env, v: World, vs: seq<Rendered>, i: nat, j: nat)
    requires WellStored(env.cat) && env.cat == next.cat && Bare(w.app.status)
    requires Syncing(env, w) && RenderFor(env, w.app, Tick(w.server)) == Some(ws) && Succeeded(env, w, ws)
    requires KeepsItsLabels(w.app.spec.components, ws, i) && OnlyOneFor(w.app.spec.components, i)
    requires Labelled(w.server, ws[i].manifest.key, ws[i].revisionName) || !ws[i].hasDep
    requires RenderFor(next, v.app, Tick(v.server)) == Some(vs) && j < |vs| == |v.app.spec.components|
    requires SameWorkload(w.app.spec.components[i], v.app.spec.components[j]) && vs[j].revisionEnabled
    requires KeepsKey(w.app.spec.components[i].inputs) && KeepsKey(v.app.spec.components[j].inputs)
    requires Records(v.app.status, ws) && ws[i].manifest.key.name != ""
    requires LabelKept(Reconciled(env, w).server, v.server, ws[i])
    ensures vs[j].manifest.key == ws[i].manifest.key
  {
    SuccessRecords(env, w, ws);
    LabelAfterRound(env, w, ws, i);
    assert Labelled(v.server, ws[i].manifest.key, ws[i].revisionName);
    RoundDraws(env, w.app, Tick(w.server));
    RoundDraws(next, v.app, Tick(v.server));
    AttachedRendering(BasisOf(env, w.app, Tick(w.server)), ws, BasisOf(next, v.app, Tick(v.server)), vs, i, j);
  }

  lemma AttachedRendering(b: Basis, ws: seq<Rendered>, c: Basis, vs: seq<Rendered>, i: nat, j: nat)
    requires b.cat == c.cat && WellStored(b.cat)
    requires Draws(b, ws) && Draws(c, vs) && i < |ws| && j < |vs| && OnlyOneFor(b.spec.components, i)
    requires SameWorkload(b.spec.components[i], c.spec.components[j]) && vs[j].revisionEnabled
    requires KeepsKey(b.spec.components[i].inputs) && KeepsKey(c.spec.components[j].inputs)
    requires Records(c.status, ws) && ws[i].manifest.key.name != "" && Labelled(c.server, ws[i].manifest.key, ws[i].revisionName)
    ensures vs[j].manifest.key == ws[i].manifest.key
  {
    var d, comp, enabled := NamedWorkload(b, b.spec.components[i], ws[i]);
    var d2, comp2, enabled2 := NamedWorkload(c, c.spec.components[j], vs[j]);
    WellKnown(b.cat, b.spec.components[i]);
    RecordedOnce(b, ws, c.status, i);
    RecordedRef(c.status, ws, i);
    WorkloadNameIsFound(c.status, i);
    AttachedKeepsName(d, comp, c.status, c.server, ws[i].manifest.key, ws[i].revisionName);
  }

  lemma AttachedKeepsName(d: Draft, c: Revisions.Component, status: seq<WorkloadStatus>, t: Server, k: Key, revision: string)
    requires RecordedWorkloadName(status, c.name) == k.name != "" && k.apiVersion == d.apiVersion && k.kind == d.kind
    requires Labelled(t, k, revision) && (c.latest.Some? ==> revision == c.latest.value.name)
    requires d.name != "" ==> d.name == k.name
    ensures var r := InstanceName(d, true, c, ExistingWorkload(status, t, c.name, d)); r.Some? ==> r == Some(k.name)
  {
  }

  // ---------- traits keep their names ----------

  /** The spec has this component once, with exactly one trait of this type, which its author did not name; no input of
      the component's traits is declared to fill a type or a name. */
  ghost predicate Mentions(es: seq<ComponentEntry>, component: string, apiVersion: string, kind: string) {
    exists i, j :: 0 <= i < |es| && 0 <= j < |es[i].traits| && MentionsAt(es, i, j, component, apiVersion, kind)
  }

  predicate MentionsAt(es: seq<ComponentEntry>, i: nat, j: nat, component: string, apiVersion: string, kind: string)
    requires i < |es| && j < |es[i].traits|
  {
    && IsTheTrait(es[i], es[i].traits[j], component, apiVersion, kind)
    && OnlyOneFor(es, i) && AloneOfType(es[i], j) && TraitsKeepKeys(es[i])
  }

  predicate IsTheTrait(e: ComponentEntry, ct: ComponentTrait, component: string, apiVersion: string, kind: string) {
    ComponentOf(e) == component && OfType(ct.draft, apiVersion, kind) && ct.draft.name == ""
  }

  /** The first name of a trait: generated from the component, the trait's type and its hash. */
  lemma FirstNameIsGenerated(cat: Catalogue, status: seq<WorkloadStatus>, component: string, ct: ComponentTrait, def: TraitDefinition)
    requires ct.draft.name == "" && NoneRecorded(status, component, ct.draft.apiVersion, ct.draft.kind)
    ensures TraitName(cat, status, component, ct, def) == GenTraitName(cat, component, ct, BeforeDot(def.name))
  {
    NothingRecorded(status, component, ct.draft);
  }

  lemma {:induction false} NoSuchTrait(ts: seq<WorkloadTrait>, d: Draft, otherwise: string)
    requires forall j :: 0 <= j < |ts| ==> !OfType(d, ts[j].reference.key.apiVersion, ts[j].reference.key.kind)
    ensures LastTraitName(ts, d.apiVersion, d.kind, otherwise) == otherwise
  {
    if ts != [] { NoSuchTrait(ts[..|ts| - 1], d, otherwise); }
  }

  lemma {:induction false} NothingRecorded(status: seq<WorkloadStatus>, component: string, d: Draft)
    requires forall i, j :: 0 <= i < |status| && 0 <= j < |status[i].traits| && status[i].componentName == component ==>
               !OfType(d, status[i].traits[j].reference.key.apiVersion, status[i].traits[j].reference.key.kind)
    ensures RecordedTraitName(status, component, d.apiVersion, d.kind) == ""
  {
    if status != [] {
      var n := |status| - 1;
      NothingRecorded(status[..n], component, d);
      if status[n].componentName == component { NoSuchTrait(status[n].traits, d, ""); }
    }
  }

  /** Where the trait is in what is rendered, and under which name. */
  lemma TraitInRound(env: Env, w: World, component: string, apiVersion: string, kind: string) returns (i: nat, j: nat)
    requires Mentions(w.app.spec.components, component, apiVersion, kind) && RenderFor(env, w.app, Tick(w.server)).Some?
    ensures var es, ws := w.app.spec.components, RenderFor(env, w.app, Tick(w.server)).value;
            && |ws| == |es| && i < |ws| && j < |ws[i].traits| == |es[i].traits|
            && MentionsAt(es, i, j, component, apiVersion, kind) && ws[i].componentName == component
            && DefinitionOf(env.cat, es[i].traits[j]).Some?
            && ws[i].traits[j].manifest.key == Key(apiVersion, kind,
                 TraitName(env.cat, w.app.status, component, es[i].traits[j], DefinitionOf(env.cat, es[i].traits[j]).value))
            && Renders(ws, ws[i].traits[j].manifest.key)
  {
    var es, ws := w.app.spec.components, RenderFor(env, w.app, Tick(w.server)).value;
    i, j :| 0 <= i < |es| && 0 <= j < |es[i].traits| && MentionsAt(es, i, j, component, apiVersion, kind);
    var b := BasisOf(env, w.app, Tick(w.server));
    RoundDraws(env, w.app, Tick(w.server));
    assert DrawsEntry(b, es[i], ws[i]);
    EntryShape(b, es[i], ws[i]);
    TraitShape(b, es[i], ws[i]);
    assert TraitNamed(b, es[i], ws[i], j);
    assert RendersTrait(ws[i].traits, ws[i].traits[j].manifest.key);
  }

  /** What a round records of the trait: what was recorded, or, if it succeeds, the name it is rendered under. */
  lemma RoundRecordsTrait(env: Env, w: World, component: string, apiVersion: string, kind: string) returns (name: string)
    requires Mentions(w.app.spec.components, component, apiVersion, kind)
    requires RenderFor(env, w.app, Tick(w.server)).Some?
    ensures Renders(RenderFor(env, w.app, Tick(w.server)).value, Key(apiVersion, kind, name))
    ensures var recorded := RecordedTraitName(w.app.status, component, apiVersion, kind); recorded != "" ==> name == recorded
    ensures Reconciled(env, w).app.status != w.app.status ==>
              RecordedTraitName(Reconciled(env, w).app.status, component, apiVersion, kind) == name
  {
    var i, j := TraitInRound(env, w, component, apiVersion, kind);
    var ws := RenderFor(env, w.app, Tick(w.server)).value;
    name := ws[i].traits[j].manifest.key.name;
    RoundDraws(env, w.app, Tick(w.server));
    RecordedAgain(BasisOf(env, w.app, Tick(w.server)), ws, w.app.status, i, j);
    if Reconciled(env, w).app.status != w.app.status {
      var vs, s := StatusChangesOnlyOnSuccess(env, w);
    }
  }

  /** A round that renders the trait gives it its recorded name, and, if it succeeds, records it again. */
  lemma RoundKeepsTraitName(env: Env, w: World, component: string, apiVersion: string, kind: string, name: string)
    requires Mentions(w.app.spec.components, component, apiVersion, kind)
    requires name != "" && RecordedTraitName(w.app.status, component, apiVersion, kind) == name
    ensures RecordedTraitName(Reconciled(env, w).app.status, component, apiVersion, kind) == name
    ensures var ws := RenderFor(env, w.app, Tick(w.server)); ws.Some? ==> Renders(ws.value, Key(apiVersion, kind, name))
  {
    if RenderFor(env, w.app, Tick(w.server)).Some? {
      var again := RoundRecordsTrait(env, w, component, apiVersion, kind);
    } else {
      NothingRenderedNothingRecorded(env, w);
    }
  }

  lemma NothingRenderedNothingRecorded(env: Env, w: World)
    requires RenderFor(env, w.app, Tick(w.server)).None?
    ensures Reconciled(env, w).app.status == w.app.status
  {
    if Reconciled(env, w).app.status != w.app.status {
      var ws, s := StatusChangesOnlyOnSuccess(env, w);
    }
  }

  /** A status just written records a trait that is alone of its type under the name it was rendered with. */
  lemma RecordedAgain(b: Basis, ws: seq<Rendered>, previous: seq<WorkloadStatus>, i: nat, j: nat)
    requires Draws(b, ws) && i < |ws| && j < |ws[i].traits| && j < |b.spec.components[i].traits|
    requires OnlyOneFor(b.spec.components, i) && AloneOfType(b.spec.components[i], j) && TraitsKeepKeys(b.spec.components[i])
    ensures var k := ws[i].traits[j].manifest.key;
            RecordedTraitName(Patched(StatusesOf(ws), previous), ws[i].componentName, k.apiVersion, k.kind) == k.name
  {
    var status := Patched(StatusesOf(ws), previous);
    PatchKeepsReferences(StatusesOf(ws), previous);
    assert SameRefs(status[i], StatusOf(ws[i]));
    RecordIsClear(b, b.spec.components[i], ws[i], status[i]);
    RecordedOnce(b, ws, status, i);
    RecordedRef(status, ws, i);
    assert status[i].traits[j].(status := "").reference == StatusOf(ws[i]).traits[j].(status := "").reference;
    TraitNameIsFound(status, i, j);
  }

  lemma {:induction false} TextsKeepTraitName(a: seq<WorkloadStatus>, b: seq<WorkloadStatus>, component: string, apiVersion: string, kind: string)
    requires |a| == |b| && forall i :: 0 <= i < |a| ==> SameRefs(b[i], a[i])
    ensures RecordedTraitName(a, component, apiVersion, kind) == RecordedTraitName(b, component, apiVersion, kind)
  {
    if a != [] {
      var n := |a| - 1;
      TextsKeepTraitName(a[..n], b[..n], component, apiVersion, kind);
      assert SameRefs(b[n], a[n]);
      assert a[n].(status := "", traits := []).componentName == b[n].(status := "", traits := []).componentName;
      TextsKeepLast(a[n].traits, b[n].traits, apiVersion, kind, RecordedTraitName(a[..n], component, apiVersion, kind));
    }
  }

  lemma {:induction false} TextsKeepLast(a: seq<WorkloadTrait>, b: seq<WorkloadTrait>, apiVersion: string, kind: string, otherwise: string)
    requires |a| == |b| && forall j :: 0 <= j < |a| ==> b[j].(status := "") == a[j].(status := "")
    ensures LastTraitName(a, apiVersion, kind, otherwise) == LastTraitName(b, apiVersion, kind, otherwise)
  {
    if a != [] {
      var n := |a| - 1;
      assert a[n].(status := "").reference == b[n].(status := "").reference;
      TextsKeepLast(a[..n], b[..n], apiVersion, kind, otherwise);
    }
  }

  ghost predicate MentionedAt(worlds: seq<World>, t: nat, component: string, apiVersion: string, kind: string) {
    t < |worlds| ==> Mentions(worlds[t].app.spec.components, component, apiVersion, kind)
  }

  /** The trait stays in the spec between a and b. */
  ghost predicate StaysInSpec(worlds: seq<World>, a: nat, b: nat, component: string, apiVersion: string, kind: string) {
    forall t: nat {:trigger MentionedAt(worlds, t, component, apiVersion, kind)} ::
      a <= t < b ==> MentionedAt(worlds, t, component, apiVersion, kind)
  }

  lemma LifeKeepsTraitName(
    worlds: seq<World>, events: seq<Event>, ours: set<Key>, t: nat,
    component: string, apiVersion: string, kind: string, name: string)
    requires IsLife(worlds, events, ours) && t < |events| && name != ""
    requires RecordedTraitName(worlds[t].app.status, component, apiVersion, kind) == name
    requires MentionedAt(worlds, t, component, apiVersion, kind)
    ensures RecordedTraitName(worlds[t + 1].app.status, component, apiVersion, kind) == name
    ensures NotCollectedAt(worlds[t], events[t], Key(apiVersion, kind, name))
  {
    StepInLife(worlds, events, ours, t);
    StepKeepsTraitName(worlds[t], worlds[t + 1], events[t], ours, component, apiVersion, kind, name);
  }

  /** Once recorded, an unnamed trait keeps its name as long as it stays in the spec: through edits of its
      content, failed rounds and successful ones. */
  lemma {:induction false} TraitNameIsKept(
    worlds: seq<World>, events: seq<Event>, ours: set<Key>, a: nat, b: nat,
    component: string, apiVersion: string, kind: string, name: string)
    requires IsLife(worlds, events, ours) && a <= b < |worlds| && name != ""
    requires RecordedTraitName(worlds[a].app.status, component, apiVersion, kind) == name
    requires StaysInSpec(worlds, a, b, component, apiVersion, kind)
    ensures RecordedTraitName(worlds[b].app.status, component, apiVersion, kind) == name
  {
    if a < b {
      TraitNameIsKept(worlds, events, ours, a, b - 1, component, apiVersion, kind, name);
      assert MentionedAt(worlds, b - 1, component, apiVersion, kind);
      LifeKeepsTraitName(worlds, events, ours, b - 1, component, apiVersion, kind, name);
    }
  }

  lemma StepInLife(worlds: seq<World>, events: seq<Event>, ours: set<Key>, t: nat)
    requires IsLife(worlds, events, ours) && t < |events|
    ensures Step(worlds[t], worlds[t + 1], events[t], ours) && Bare(worlds[t].app.status)
  {
    LifeKeepsInv(worlds, events, ours, t);
    assert StepAt(worlds, events, ours, t);
  }

  /** All that time, every round that renders anything renders it under that name, so that it is updated in
      place and never collected. */
  lemma NamedTraitIsNeverCollected(
    worlds: seq<World>, events: seq<Event>, ours: set<Key>, a: nat, t: nat,
    component: string, apiVersion: string, kind: string, name: string)
    requires IsLife(worlds, events, ours) && a <= t < |events| && name != ""
    requires RecordedTraitName(worlds[a].app.status, component, apiVersion, kind) == name
    requires StaysInSpec(worlds, a, t + 1, component, apiVersion, kind)
    ensures RecordedTraitName(worlds[t].app.status, component, apiVersion, kind) == name
    ensures NotCollectedAt(worlds[t], events[t], Key(apiVersion, kind, name))
  {
    TraitNameIsKept(worlds, events, ours, a, t, component, apiVersion, kind, name);
    assert MentionedAt(worlds, t, component, apiVersion, kind);
    LifeKeepsTraitName(worlds, events, ours, t, component, apiVersion, kind, name);
  }

  /** The round, if it renders anything, renders k and does not collect it. */
  ghost predicate NeverCollected(env: Env, w: World, k: Key) {
    var s := Tick(w.server);
    RenderFor(env, w.app, s).Some? ==>
      var ws := RenderFor(env, w.app, s).value;
      Renders(ws, k) && k !in Eligible(w.app.status, RenderedRefs(ws))
  }

  ghost predicate NotCollectedAt(w: World, e: Event, k: Key) {
    e.Round? ==> NeverCollected(e.env, w, k)
  }

  lemma StepKeepsTraitName(w: World, v: World, e: Event, ours: set<Key>, component: string, apiVersion: string, kind: string, name: string)
    requires Step(w, v, e, ours) && Bare(w.app.status) && Mentions(w.app.spec.components, component, apiVersion, kind)
    requires name != "" && RecordedTraitName(w.app.status, component, apiVersion, kind) == name
    ensures RecordedTraitName(v.app.status, component, apiVersion, kind) == name
    ensures NotCollectedAt(w, e, Key(apiVersion, kind, name))
  {
    match e {
      case Round(env) =>
        RoundKeepsTraitName(env, w, component, apiVersion, kind, name);
        var s := Tick(w.server);
        if RenderFor(env, w.app, s).Some? {
          NotEligible(w.app.status, RenderFor(env, w.app, s).value, Key(apiVersion, kind, name));
        }
      case Edit(_) =>
      case Delete =>
      case Others => TextsKeepTraitName(w.app.status, v.app.status, component, apiVersion, kind);
    }
  }

  lemma NotEligible(status: seq<WorkloadStatus>, ws: seq<Rendered>, k: Key)
    requires Bare(status) && Renders(ws, k)
    ensures k !in Eligible(status, RenderedRefs(ws))
  {
    RenderedIsCollectedExactlyWhen(status, ws, k);
    forall r | Unspared(status, r) || TracksAsTrait(status, r) ensures r.uid == "" {
      assert Tracked(status, r);
    }
  }

  // ---------- from the first name on ----------

  /** The status records no trait of this type for the component. */
  predicate NoneRecorded(status: seq<WorkloadStatus>, component: string, apiVersion: string, kind: string) {
    forall i, j :: 0 <= i < |status| && 0 <= j < |status[i].traits| && status[i].componentName == component ==>
      !(status[i].traits[j].reference.key.apiVersion == apiVersion && status[i].traits[j].reference.key.kind == kind)
  }

  /** The name is generated from the component, the trait's type and its hash, for the trait as the spec has it. */
  ghost predicate IsGeneratedName(cat: Catalogue, es: seq<ComponentEntry>, component: string, apiVersion: string, kind: string, name: string) {
    exists i, j :: 0 <= i < |es| && 0 <= j < |es[i].traits| && IsTheTrait(es[i], es[i].traits[j], component, apiVersion, kind)
      && GeneratedFrom(cat, component, es[i].traits[j], name)
  }

  predicate GeneratedFrom(cat: Catalogue, component: string, ct: ComponentTrait, name: string) {
    var def := DefinitionOf(cat, ct);
    def.Some? && name == GenTraitName(cat, component, ct, BeforeDot(def.value.name))
  }

  /** The first successful round with an unnamed trait records it under its generated name. */
  lemma FirstRoundRecordsGeneratedName(env: Env, w: World, component: string, apiVersion: string, kind: string) returns (name: string)
    requires Mentions(w.app.spec.components, component, apiVersion, kind) && SucceedsIn(env, w)
    requires NoneRecorded(w.app.status, component, apiVersion, kind)
    ensures RecordedTraitName(Reconciled(env, w).app.status, component, apiVersion, kind) == name != ""
    ensures IsGeneratedName(env.cat, w.app.spec.components, component, apiVersion, kind, name)
  {
    var i, j := TraitInRound(env, w, component, apiVersion, kind);
    var ws, ct := RenderFor(env, w.app, Tick(w.server)).value, w.app.spec.components[i].traits[j];
    FirstNameIsGenerated(env.cat, w.app.status, component, ct, DefinitionOf(env.cat, ct).value);
    name := ws[i].traits[j].manifest.key.name;
    assert GeneratedFrom(env.cat, component, ct, name);
    RoundDraws(env, w.app, Tick(w.server));
    RecordedAgain(BasisOf(env, w.app, Tick(w.server)), ws, w.app.status, i, j);
  }

  lemma RoundInLife(worlds: seq<World>, events: seq<Event>, ours: set<Key>, t: nat)
    requires IsLife(worlds, events, ours) && t < |events| && events[t].Round?
    ensures worlds[t + 1] == Reconciled(events[t].env, worlds[t])
  {
    assert StepAt(worlds, events, ours, t);
  }

  lemma StaysLater(worlds: seq<World>, a: nat, b: nat, component: string, apiVersion: string, kind: string)
    requires StaysInSpec(worlds, a, b, component, apiVersion, kind)
    ensures StaysInSpec(worlds, a + 1, b, component, apiVersion, kind)
  {
  }

  lemma KeptAfter(
    worlds: seq<World>, events: seq<Event>, ours: set<Key>, a: nat, t: nat,
    component: string, apiVersion: string, kind: string, name: string)
    requires IsLife(worlds, events, ours) && a < t < |events| && name != ""
    requires RecordedTraitName(worlds[a + 1].app.status, component, apiVersion, kind) == name
    requires StaysInSpec(worlds, a, t + 1, component, apiVersion, kind)
    ensures RecordedTraitName(worlds[t].app.status, component, apiVersion, kind) == name
    ensures NotCollectedAt(worlds[t], events[t], Key(apiVersion, kind, name))
  {
    StaysLater(worlds, a, t + 1, component, apiVersion, kind);
    NamedTraitIsNeverCollected(worlds, events, ours, a + 1, t, component, apiVersion, kind, name);
  }

  lemma FirstRoundInLife(
    worlds: seq<World>, events: seq<Event>, ours: set<Key>, a: nat, component: string, apiVersion: string, kind: string)
    returns (name: string)
    requires IsLife(worlds, events, ours) && a < |events| && events[a].Round?
    requires SucceedsIn(events[a].env, worlds[a]) && NoneRecorded(worlds[a].app.status, component, apiVersion, kind)
    requires MentionedAt(worlds, a, component, apiVersion, kind)
    ensures IsGeneratedName(events[a].env.cat, worlds[a].app.spec.components, component, apiVersion, kind, name)
    ensures RecordedTraitName(worlds[a + 1].app.status, component, apiVersion, kind) == name != ""
  {
    name := FirstRoundRecordsGeneratedName(events[a].env, worlds[a], component, apiVersion, kind);
    RoundInLife(worlds, events, ours, a);
  }

  /** The whole life of an unnamed trait. Nothing of its type is recorded for its component; round a succeeds. From
      then on, as long as it stays in the spec, and however its content changes, it is recorded, rendered and never
      collected under the name generated from what it was in round a. */
  lemma TraitKeepsItsFirstName(
    worlds: seq<World>, events: seq<Event>, ours: set<Key>, a: nat, t: nat, component: string, apiVersion: string, kind: string)
    returns (name: string)
    requires IsLife(worlds, events, ours) && a < t < |events| && events[a].Round?
    requires SucceedsIn(events[a].env, worlds[a]) && NoneRecorded(worlds[a].app.status, component, apiVersion, kind)
    requires StaysInSpec(worlds, a, t + 1, component, apiVersion, kind)
    ensures IsGeneratedName(events[a].env.cat, worlds[a].app.spec.components, component, apiVersion, kind, name)
    ensures RecordedTraitName(worlds[t].app.status, component, apiVersion, kind) == name
    ensures NotCollectedAt(worlds[t], events[t], Key(apiVersion, kind, name))
  {
    assert MentionedAt(worlds, a, component, apiVersion, kind);
    name := FirstRoundInLife(worlds, events, ours, a, component, apiVersion, kind);
    KeptAfter(worlds, events, ours, a, t, component, apiVersion, kind, name);
  }
}
