/** What rendered objects are called, in terms of the spec, what is recorded, and the labels in the cluster. */
module Naming {
  import opened Wrappers
  import opened Kube
  import opened Cluster
  import opened AppStatus
  import opened Apply
  import opened Rendering
  import opened Reconcile
  import opened RenderedFacts
  import opened Gating
  import opened Stability
  import opened Contents
  import Dependencies
  import FieldPaths
  import Revisions

  // ---------- what is recorded ----------

  /** Entry i is the last one recorded for the component. */
  predicate LastOf(status: seq<WorkloadStatus>, component: string, i: nat) {
    && i < |status| && status[i].componentName == component
    && forall l :: i < l < |status| ==> status[l].componentName != component
  }

  /** The name the component's workload was recorded under last; "" if it never was. */
  ghost predicate WasCalled(status: seq<WorkloadStatus>, component: string, name: string) {
    if exists i: nat :: LastOf(status, component, i) then
      exists i: nat :: LastOf(status, component, i) && status[i].reference.key.name == name
    else name == ""
  }

  lemma {:induction false} RecordedWorkloadIsLast(status: seq<WorkloadStatus>, component: string)
    ensures WasCalled(status, component, RecordedWorkloadName(status, component))
  {
    if status != [] {
      var n := |status| - 1;
      if status[n].componentName == component {
        assert LastOf(status, component, n);
      } else {
        RecordedWorkloadIsLast(status[..n], component);
        forall i: nat ensures LastOf(status, component, i) <==> LastOf(status[..n], component, i) {}
      }
    }
  }

  /** Trait j of entry i is one of this type, of the component. */
  predicate IsOfType(status: seq<WorkloadStatus>, component: string, apiVersion: string, kind: string, i: nat, j: nat) {
    && i < |status| && status[i].componentName == component && j < |status[i].traits|
    && status[i].traits[j].reference.key.apiVersion == apiVersion && status[i].traits[j].reference.key.kind == kind
  }

  /** No later one is. */
  ghost predicate LastOfType(status: seq<WorkloadStatus>, component: string, apiVersion: string, kind: string, i: nat, j: nat) {
    && IsOfType(status, component, apiVersion, kind, i, j)
    && forall l: nat, m: nat :: IsOfType(status, component, apiVersion, kind, l, m) ==> l < i || (l == i && m <= j)
  }

  lemma {:induction false} LastTraitIs(ts: seq<WorkloadTrait>, apiVersion: string, kind: string, otherwise: string) returns (j: int)
    ensures -1 <= j < |ts|
    ensures LastTraitName(ts, apiVersion, kind, otherwise) == if j < 0 then otherwise else ts[j].reference.key.name
    ensures j >= 0 ==> ts[j].reference.key.apiVersion == apiVersion && ts[j].reference.key.kind == kind
    ensures forall m :: j < m < |ts| ==> !(ts[m].reference.key.apiVersion == apiVersion && ts[m].reference.key.kind == kind)
  {
    if ts == [] {
      j := -1;
    } else {
      var n := |ts| - 1;
      if ts[n].reference.key.apiVersion == apiVersion && ts[n].reference.key.kind == kind {
        j := n;
      } else {
        j := LastTraitIs(ts[..n], apiVersion, kind, otherwise);
        forall m | j < m < |ts| ensures !(ts[m].reference.key.apiVersion == apiVersion && ts[m].reference.key.kind == kind) {
          if m < n { assert ts[..n][m] == ts[m]; }
        }
      }
    }
  }

  /** The name recorded for a trait of this type is that of the last one recorded for the component; none gives "". */
  lemma {:induction false} RecordedTraitIsLast(status: seq<WorkloadStatus>, component: string, apiVersion: string, kind: string)
    ensures var name := RecordedTraitName(status, component, apiVersion, kind);
            || (name == "" && forall i: nat, j: nat :: !IsOfType(status, component, apiVersion, kind, i, j))
            || exists i: nat, j: nat :: LastOfType(status, component, apiVersion, kind, i, j) && name == status[i].traits[j].reference.key.name
  {
    if status != [] {
      var n := |status| - 1;
      var before := status[..n];
      RecordedTraitIsLast(before, component, apiVersion, kind);
      forall i: nat, j: nat | i < n ensures IsOfType(before, component, apiVersion, kind, i, j) <==> IsOfType(status, component, apiVersion, kind, i, j) {}
      var own := -1;
      if status[n].componentName == component {
        own := LastTraitIs(status[n].traits, apiVersion, kind, RecordedTraitName(before, component, apiVersion, kind));
      }
      if own >= 0 {
        assert LastOfType(status, component, apiVersion, kind, n, own);
      } else {
        forall j: nat ensures !IsOfType(status, component, apiVersion, kind, n, j) {}
        var recorded := RecordedTraitName(before, component, apiVersion, kind);
        if i: nat, j: nat :| LastOfType(before, component, apiVersion, kind, i, j) && recorded == before[i].traits[j].reference.key.name {
          assert LastOfType(status, component, apiVersion, kind, i, j);
        }
      }
    }
  }

  // ---------- workloads ----------

  function KeptOrLatest(d: Draft, recorded: string, latest: string, s: Server): string {
    if recorded != "" && Labelled(s, Key(d.apiVersion, d.kind, recorded), latest) then recorded else latest
  }

  /** The author's name; else, without revisions, the component's; else the recorded one if that object carries the
      label of the latest revision, and the name of the latest revision if not. */
  ghost predicate IsCalled(d: Draft, c: Revisions.Component, enabled: bool, status: seq<WorkloadStatus>, s: Server, name: string) {
    if d.name != "" then name == d.name
    else if !enabled then name == c.name
    else
      && c.latest.Some?
      && exists recorded :: WasCalled(status, c.name, recorded) && name == KeptOrLatest(d, recorded, c.latest.value.name, s)
  }

  lemma InstanceIsCalled(d: Draft, c: Revisions.Component, enabled: bool, status: seq<WorkloadStatus>, s: Server)
    ensures var r := InstanceName(d, enabled, c, ExistingWorkload(status, s, c.name, d));
            && (r.None? <==> d.name == "" && enabled && c.latest.None?)
            && (r.Some? ==> IsCalled(d, c, enabled, status, s, r.value))
  {
    RecordedWorkloadIsLast(status, c.name);
  }

  /** A rendered workload has the type of its draft and is called so, if no input is declared to fill either. */
  lemma WorkloadIsCalled(b: Basis, e: ComponentEntry, w: Rendered) returns (c: Revisions.Component, d: Draft)
    requires DrawsEntry(b, e, w) && Dependencies.KeepsKey(e.inputs)
    ensures AsksFor(b.cat, e, c) && b.cat.draw(c.spec, e.parameters) == Some(d)
    ensures w.manifest.key.apiVersion == d.apiVersion && w.manifest.key.kind == d.kind
    ensures IsCalled(d, c, exists j :: 0 <= j < |e.traits| && Enables(b.cat, e.traits[j]), b.status, b.server, w.manifest.key.name)
  {
    var enabled;
    d, c, enabled := NamedWorkload(b, e, w);
    EnabledExactlyWhen(b.cat, b.spec, b.status, ComponentOf(e), w.revisionName, e.traits);
    InstanceIsCalled(d, c, enabled, b.status, b.server);
  }

  // ---------- traits ----------

  /** The part of a generated name between the component and the hash: the definition's name up to its first dot, in
      lower case, or "trait". */
  predicate IsMiddle(definition: string, middle: string) {
    exists n :: 0 <= n <= |definition| && '.' !in definition[..n] && (n < |definition| ==> definition[n] == '.')
      && if n == 0 then middle == "trait" else InLowerCase(definition[..n], middle)
  }

  /** The same text with its ASCII capitals in lower case. */
  predicate InLowerCase(s: string, lower: string) {
    |lower| == |s| && forall i :: 0 <= i < |s| ==> lower[i] as int == s[i] as int + if 'A' <= s[i] <= 'Z' then 32 else 0
  }

  lemma {:induction false} BeforeDotIs(s: string) returns (n: nat)
    ensures n <= |s| && BeforeDot(s) == s[..n] && '.' !in s[..n] && (n < |s| ==> s[n] == '.')
  {
    if s == "" || s[0] == '.' {
      n := 0;
    } else {
      var m := BeforeDotIs(s[1..]);
      n := m + 1;
      assert s[..n] == [s[0]] + s[1..][..m];
    }
  }

  /** A trait's definition, or a dummy one of that name; none if discovery fails. */
  ghost predicate DefinedAs(cat: Catalogue, ct: ComponentTrait, definition: string) {
    && cat.definitionName(ct.draft).Some?
    && var name := cat.definitionName(ct.draft).value;
       definition == if name in cat.definitions then cat.definitions[name].name else "dummy"
  }

  /** The author's name; else the one recorded last for a trait of the type; else one generated from the component, the
      definition and the trait's hash. */
  ghost predicate TraitIsCalled(cat: Catalogue, status: seq<WorkloadStatus>, component: string, ct: ComponentTrait, name: string) {
    if ct.draft.name != "" then name == ct.draft.name
    else if exists i: nat, j: nat :: LastOfType(status, component, ct.draft.apiVersion, ct.draft.kind, i, j)
                                  && status[i].traits[j].reference.key.name != "" then
      exists i: nat, j: nat :: LastOfType(status, component, ct.draft.apiVersion, ct.draft.kind, i, j)
                            && name == status[i].traits[j].reference.key.name
    else exists definition, middle :: DefinedAs(cat, ct, definition) && IsMiddle(definition, middle)
                                   && name == component + "-" + middle + "-" + cat.hash(ct)
  }

  lemma GeneratedIsCalled(cat: Catalogue, component: string, ct: ComponentTrait, def: TraitDefinition)
    requires DefinitionOf(cat, ct) == Some(def)
    ensures exists definition, middle :: DefinedAs(cat, ct, definition) && IsMiddle(definition, middle)
              && GenTraitName(cat, component, ct, BeforeDot(def.name)) == component + "-" + middle + "-" + cat.hash(ct)
  {
    var n := BeforeDotIs(def.name);
    var middle := if n == 0 then "trait" else ToLower(def.name[..n]);
    assert DefinedAs(cat, ct, def.name) && IsMiddle(def.name, middle);
  }

  lemma LastOfTypeIsOne(status: seq<WorkloadStatus>, component: string, apiVersion: string, kind: string, i: nat, j: nat, l: nat, m: nat)
    requires LastOfType(status, component, apiVersion, kind, i, j) && LastOfType(status, component, apiVersion, kind, l, m)
    ensures i == l && j == m
  {
  }

  lemma NamedTrait(cat: Catalogue, status: seq<WorkloadStatus>, component: string, ct: ComponentTrait, def: TraitDefinition)
    requires DefinitionOf(cat, ct) == Some(def)
    ensures TraitIsCalled(cat, status, component, ct, TraitName(cat, status, component, ct, def))
  {
    var apiVersion, kind := ct.draft.apiVersion, ct.draft.kind;
    RecordedTraitIsLast(status, component, apiVersion, kind);
    GeneratedIsCalled(cat, component, ct, def);
    var recorded := RecordedTraitName(status, component, apiVersion, kind);
    if i: nat, j: nat :| LastOfType(status, component, apiVersion, kind, i, j) && status[i].traits[j].reference.key.name != "" {
      if l: nat, m: nat :| LastOfType(status, component, apiVersion, kind, l, m) && recorded == status[l].traits[m].reference.key.name {
        LastOfTypeIsOne(status, component, apiVersion, kind, i, j, l, m);
      }
    }
  }

  /** A rendered trait has the type of its draft and is called so, if no input of the component's traits is declared to
      fill either. */
  lemma TraitsAreCalled(b: Basis, e: ComponentEntry, w: Rendered, j: nat)
    requires DrawsEntry(b, e, w) && TraitsKeepKeys(e) && j < |e.traits|
    ensures |w.traits| == |e.traits|
    ensures w.traits[j].manifest.key.apiVersion == e.traits[j].draft.apiVersion && w.traits[j].manifest.key.kind == e.traits[j].draft.kind
    ensures TraitIsCalled(b.cat, b.status, ComponentOf(e), e.traits[j], w.traits[j].manifest.key.name)
  {
    TraitShape(b, e, w);
    assert TraitNamed(b, e, w, j);
    NamedTrait(b.cat, b.status, ComponentOf(e), e.traits[j], DefinitionOf(b.cat, e.traits[j]).value);
  }

  /** Every name a round renders is one of these. */
  lemma RoundCallsThemSo(env: Env, app: App, s: Server, i: nat) returns (c: Revisions.Component, d: Draft)
    requires RenderFor(env, app, s).Some? && i < |RenderFor(env, app, s).value| && i < |app.spec.components|
    requires Dependencies.KeepsKey(app.spec.components[i].inputs) && TraitsKeepKeys(app.spec.components[i])
    ensures var e, w := app.spec.components[i], RenderFor(env, app, s).value[i];
            && AsksFor(env.cat, e, c) && env.cat.draw(c.spec, e.parameters) == Some(d)
            && w.manifest.key.apiVersion == d.apiVersion && w.manifest.key.kind == d.kind
            && IsCalled(d, c, exists j :: 0 <= j < |e.traits| && Enables(env.cat, e.traits[j]), app.status, s, w.manifest.key.name)
            && |w.traits| == |e.traits|
            && forall j :: 0 <= j < |w.traits| ==>
                 TraitIsCalled(env.cat, app.status, ComponentOf(e), e.traits[j], w.traits[j].manifest.key.name)
  {
    var b, e, w := BasisOf(env, app, s), app.spec.components[i], RenderFor(env, app, s).value[i];
    RoundDraws(env, app, s);
    c, d := WorkloadIsCalled(b, e, w);
    EntryShape(b, e, w);
    forall j | 0 <= j < |w.traits| ensures TraitIsCalled(b.cat, b.status, ComponentOf(e), e.traits[j], w.traits[j].manifest.key.name) {
      TraitsAreCalled(b, e, w, j);
    }
  }

  // ---------- when a round draws anything ----------

  /** Discovery knows every trait; that there is no definition of that name is no obstacle. */
  predicate TraitsAreKnown(cat: Catalogue, cts: seq<ComponentTrait>) {
    forall j :: 0 <= j < |cts| ==> cat.definitionName(cts[j].draft).Some?
  }

  predicate ScopesAreThere(s: Server, keys: seq<Key>) {
    forall j :: 0 <= j < |keys| ==> keys[j] in s.scopes
  }

  /** The component or its revision is there and its workload can be drawn; its traits are known and its scopes there; and
      if its workload is to be named after a revision, there is one. */
  ghost predicate CanBeDrawn(cat: Catalogue, s: Server, e: ComponentEntry) {
    && TraitsAreKnown(cat, e.traits) && ScopesAreThere(s, e.scopes)
    && exists c, d :: DrawnFrom(cat, e, c, d) && CanBeNamed(cat, e, c, d)
  }

  predicate CanBeNamed(cat: Catalogue, e: ComponentEntry, c: Revisions.Component, d: Draft) {
    d.name == "" && (exists j :: 0 <= j < |e.traits| && Enables(cat, e.traits[j])) ==> c.latest.Some?
  }

  ghost predicate AllCanBeDrawn(cat: Catalogue, s: Server, es: seq<ComponentEntry>) {
    forall i :: 0 <= i < |es| ==> CanBeDrawn(cat, s, es[i])
  }

  lemma LastCanBeDrawn(cat: Catalogue, s: Server, es: seq<ComponentEntry>)
    requires es != []
    ensures var n := |es| - 1; AllCanBeDrawn(cat, s, es) <==> AllCanBeDrawn(cat, s, es[..n]) && CanBeDrawn(cat, s, es[n])
  {
    var n := |es| - 1;
    forall i | 0 <= i < n ensures es[..n][i] == es[i] {}
    if AllCanBeDrawn(cat, s, es) {
      forall i | 0 <= i < n ensures CanBeDrawn(cat, s, es[..n][i]) { assert CanBeDrawn(cat, s, es[i]); }
    }
  }

  predicate DrawnFrom(cat: Catalogue, e: ComponentEntry, c: Revisions.Component, d: Draft) {
    AsksFor(cat, e, c) && cat.draw(c.spec, e.parameters) == Some(d)
  }

  lemma {:induction false} TraitsSucceedExactlyWhen(
    cat: Catalogue, app: AppSpec, status: seq<WorkloadStatus>, component: string, revision: string, cts: seq<ComponentTrait>)
    ensures RenderTraits(cat, app, status, component, revision, cts).Some? <==> TraitsAreKnown(cat, cts)
  {
    if cts != [] {
      var n := |cts| - 1;
      TraitsSucceedExactlyWhen(cat, app, status, component, revision, cts[..n]);
      assert TraitsAreKnown(cat, cts) <==> TraitsAreKnown(cat, cts[..n]) && cat.definitionName(cts[n].draft).Some? by {
        forall j | 0 <= j < n ensures cts[..n][j] == cts[j] {}
      }
    }
  }

  lemma {:induction false} ScopesSucceedExactlyWhen(s: Server, keys: seq<Key>)
    ensures ReadScopes(s, keys).Some? <==> ScopesAreThere(s, keys)
  {
    if keys != [] {
      var n := |keys| - 1;
      ScopesSucceedExactlyWhen(s, keys[..n]);
      assert ScopesAreThere(s, keys) <==> ScopesAreThere(s, keys[..n]) && keys[n] in s.scopes by {
        forall j | 0 <= j < n ensures keys[..n][j] == keys[j] {}
      }
    }
  }

  lemma EntrySucceedsExactlyWhen(cat: Catalogue, app: AppSpec, status: seq<WorkloadStatus>, s: Server, e: ComponentEntry)
    ensures RenderEntry(cat, app, status, s, e).Some? <==> CanBeDrawn(cat, s, e)
  {
    var found := GetComponent(cat, e);
    if found.Some? {
      var c, revision := found.value.0, found.value.1;
      var d := cat.draw(c.spec, e.parameters);
      TraitsSucceedExactlyWhen(cat, app, status, ComponentOf(e), revision, e.traits);
      ScopesSucceedExactlyWhen(s, e.scopes);
      if d.Some? && TraitsAreKnown(cat, e.traits) {
        EnabledExactlyWhen(cat, app, status, ComponentOf(e), revision, e.traits);
        var enabled := RenderTraits(cat, app, status, ComponentOf(e), revision, e.traits).value.revisionEnabled;
        InstanceIsCalled(d.value, c, enabled, status, s);
        assert DrawnFrom(cat, e, c, d.value);
      }
    }
  }

  lemma {:induction false} AllSucceedExactlyWhen(cat: Catalogue, app: AppSpec, status: seq<WorkloadStatus>, s: Server, es: seq<ComponentEntry>)
    ensures RenderAll(cat, app, status, s, es).Some? <==> AllCanBeDrawn(cat, s, es)
  {
    if es != [] {
      AllSucceedExactlyWhen(cat, app, status, s, es[..|es| - 1]);
      EntrySucceedsExactlyWhen(cat, app, status, s, es[|es| - 1]);
      LastCanBeDrawn(cat, s, es);
    }
  }

  /** A round draws its objects exactly when every entry can be drawn. */
  lemma RoundDrawsExactlyWhen(env: Env, app: App, s: Server)
    ensures RenderAll(env.cat, app.spec, app.status, s, app.spec.components).Some? <==> AllCanBeDrawn(env.cat, s, app.spec.components)
  {
    AllSucceedExactlyWhen(env.cat, app.spec, app.status, s, app.spec.components);
  }

  /** None of the drawn objects has an input that cannot be handled, with none before it that holds it back. */
  ghost predicate NothingStops(es: seq<ComponentEntry>, drawn: seq<Rendered>, snap: Dependencies.Snapshot, ac: FieldPaths.Value)
    requires Aligned(es, drawn)
  {
    var app := GraphOf(es, drawn);
    forall n :: n in Dependencies.Nodes(app) ==> !Dependencies.SomeStops(n.inputs, Dependencies.SourcesOf(app), n.content, snap, ac)
  }

  /** It renders, if nothing else fails, exactly when besides its inputs can be handled. */
  lemma RoundRendersExactlyWhen(env: Env, app: App, s: Server)
    ensures RenderFor(env, app, s).Some? <==>
              && !env.renderFails && AllCanBeDrawn(env.cat, s, app.spec.components)
              && var drawn := RenderAll(env.cat, app.spec, app.status, s, app.spec.components);
                 drawn.Some? && NothingStops(app.spec.components, drawn.value, SnapshotOf(s, env.unreadable), env.tree)
  {
    RoundDrawsExactlyWhen(env, app, s);
    var drawn := RenderAll(env.cat, app.spec, app.status, s, app.spec.components);
    if drawn.Some? {
      Dependencies.RenderSucceedsExactlyWhen(GraphOf(app.spec.components, drawn.value), SnapshotOf(s, env.unreadable), env.tree);
    }
  }
}
