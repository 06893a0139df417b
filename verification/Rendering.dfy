/** Rendering an application: which component and revision, which names, which labels, which scopes. */
module Rendering {
  import opened Wrappers
  import opened Kube
  import opened Names
  import opened Labels
  import opened Cluster
  import opened AppStatus
  import opened Apply
  import Revisions
  import Dependencies

  const DUMMY := "dummy"

  /** An object as written by its author, parameters already filled in; name is "" where the author gave none. */
  datatype Draft = Draft(apiVersion: string, kind: string, name: string, labels: Labelling, annotations: Labelling, content: Fields)

  datatype TraitDefinition = TraitDefinition(name: string, referenceName: string, revisionEnabled: bool)

  /** A trait as the application's spec has it, with its data inputs and outputs; the whole of it is hashed. */
  datatype ComponentTrait = ComponentTrait(
    draft: Draft,
    inputs: seq<Dependencies.DataInput>,
    outputs: seq<Dependencies.DataOutput>)

  datatype ComponentEntry = ComponentEntry(
    componentName: string,
    revisionName: string,
    parameters: string,
    traits: seq<ComponentTrait>,
    scopes: seq<Key>,
    inputs: seq<Dependencies.DataInput>,
    outputs: seq<Dependencies.DataOutput>)

  datatype AppSpec = AppSpec(
    name: string,
    uid: string,
    generation: string,
    labels: Labelling,
    annotations: Labelling,
    components: seq<ComponentEntry>)

  /** What rendering looks up. Draw is the outcome of resolving the parameters and filling them into the
      workload of a component's spec (see the Parameters module), definitionName the name under which a trait's
      definition is stored, if discovery knows one, and hash the hash of a trait. */
  datatype Catalogue = Catalogue(
    components: map<string, Revisions.Component>,
    revisions: Revisions.Store,
    definitions: map<string, TraitDefinition>,
    draw: (Revisions.Spec, string) -> Option<Draft>,
    definitionName: Draft -> Option<string>,
    hash: ComponentTrait -> string)

  // ---------- components ----------

  /** The component an entry is about: the one its pinned revision is named after, if it has one. */
  function ComponentOf(e: ComponentEntry): string {
    if e.revisionName != "" then ExtractComponentName(e.revisionName) else e.componentName
  }

  /** GetComponent: the component and the revision name it goes by. */
  function GetComponent(cat: Catalogue, e: ComponentEntry): Option<(Revisions.Component, string)> {
    if e.revisionName != "" then
      if e.revisionName in cat.revisions && cat.revisions[e.revisionName].data.Some? then
        Some((cat.revisions[e.revisionName].data.value, e.revisionName))
      else None
    else if e.componentName in cat.components then
      var c := cat.components[e.componentName];
      Some((c, if c.latest.Some? then c.latest.value.name else ""))
    else None
  }

  // ---------- traits ----------

  /** strings.ToLower, on ASCII letters. */
  function ToLower(s: string): string {
    seq(|s|, i requires 0 <= i < |s| => if 'A' <= s[i] <= 'Z' then s[i] - 'A' + 'a' else s[i])
  }

  /** The text before the first dot. */
  function BeforeDot(s: string): string {
    if s == "" || s[0] == '.' then "" else [s[0]] + BeforeDot(s[1..])
  }

  function GenTraitName(cat: Catalogue, component: string, ct: ComponentTrait, traitType: string): (name: string)
    ensures name != ""
  {
    component + "-" + (if traitType != "" then ToLower(traitType) else "trait") + "-" + cat.hash(ct)
  }

  /** The name of the last recorded trait of this type; "" when there is none. */
  function LastTraitName(ts: seq<WorkloadTrait>, apiVersion: string, kind: string, otherwise: string): string {
    if ts == [] then otherwise
    else
      var k := ts[|ts| - 1].reference.key;
      if k.apiVersion == apiVersion && k.kind == kind then k.name
      else LastTraitName(ts[..|ts| - 1], apiVersion, kind, otherwise)
  }

  function RecordedTraitName(status: seq<WorkloadStatus>, component: string, apiVersion: string, kind: string): string {
    if status == [] then ""
    else
      var before, last := RecordedTraitName(status[..|status| - 1], component, apiVersion, kind), status[|status| - 1];
      if last.componentName == component then LastTraitName(last.traits, apiVersion, kind, before) else before
  }

  /** getTraitName: the author's name, else the recorded one, else a generated one. */
  function TraitName(cat: Catalogue, status: seq<WorkloadStatus>, component: string, ct: ComponentTrait, def: TraitDefinition): string {
    if ct.draft.name != "" then ct.draft.name
    else
      var recorded := RecordedTraitName(status, component, ct.draft.apiVersion, ct.draft.kind);
      if recorded != "" then recorded else GenTraitName(cat, component, ct, BeforeDot(def.name))
  }

  /** The definition of a trait; a dummy one when there is none. None when discovery fails. */
  function DefinitionOf(cat: Catalogue, ct: ComponentTrait): Option<TraitDefinition> {
    match cat.definitionName(ct.draft)
    case None => None
    case Some(name) =>
      if name in cat.definitions then Some(cat.definitions[name]) else Some(TraitDefinition(DUMMY, DUMMY, false))
  }

  function Manifested(app: AppSpec, d: Draft, name: string, component: string, revision: string, resourceType: string): Manifest {
    Manifest(
      Key(d.apiVersion, d.kind, name),
      Body(
        Some(app.uid),
        Stamped(d.labels, Info(app.name, component, revision, resourceType), app.labels),
        Stamped(d.annotations, map[APP_GENERATION := app.generation], app.annotations),
        d.content))
  }

  function RenderTrait(cat: Catalogue, app: AppSpec, status: seq<WorkloadStatus>, component: string, revision: string,
                       ct: ComponentTrait): Option<(RenderedTrait, TraitDefinition)> {
    var def := DefinitionOf(cat, ct);
    if def.None? then None
    else
      var name := TraitName(cat, status, component, ct, def.value);
      var dummy := def.value.name == DUMMY && def.value.referenceName == DUMMY;
      Some((RenderedTrait(Manifested(app, ct.draft, name, component, revision, TRAIT_RESOURCE), false, dummy), def.value))
  }

  /** The traits rendered, and whether any of them is revision enabled. */
  datatype RenderedTraits = RenderedTraits(traits: seq<RenderedTrait>, revisionEnabled: bool)

  function RenderTraits(cat: Catalogue, app: AppSpec, status: seq<WorkloadStatus>, component: string, revision: string,
                        cts: seq<ComponentTrait>): (r: Option<RenderedTraits>)
    ensures r.Some? ==> |r.value.traits| == |cts|
  {
    if cts == [] then Some(RenderedTraits([], false))
    else
      var before := RenderTraits(cat, app, status, component, revision, cts[..|cts| - 1]);
      var last := RenderTrait(cat, app, status, component, revision, cts[|cts| - 1]);
      if before.None? || last.None? then None
      else Some(RenderedTraits(before.value.traits + [last.value.0], before.value.revisionEnabled || last.value.1.revisionEnabled))
  }

  // ---------- the workload's name ----------

  /** The workload name recorded last for a component; "" when there is none. */
  function RecordedWorkloadName(status: seq<WorkloadStatus>, component: string): string {
    if status == [] then ""
    else
      var last := status[|status| - 1];
      if last.componentName == component then last.reference.key.name
      else RecordedWorkloadName(status[..|status| - 1], component)
  }

  /** The running workload: its name and labels. With nothing recorded it is an empty object; it is None when
      the recorded one is not there. */
  datatype Existing = Existing(name: string, labels: Labelling)

  function ExistingWorkload(status: seq<WorkloadStatus>, s: Server, component: string, d: Draft): Option<Existing> {
    var name := RecordedWorkloadName(status, component);
    if name == "" then Some(Existing("", map[]))
    else
      var k := Key(d.apiVersion, d.kind, name);
      if k in s.objects then Some(Existing(name, s.objects[k].body.labels)) else None
  }

  /** SetWorkloadInstanceName; None when revisions are enabled and the component has none. */
  function InstanceName(d: Draft, revisionEnabled: bool, c: Revisions.Component, existing: Option<Existing>): Option<string> {
    if d.name != "" then Some(d.name)
    else if !revisionEnabled then Some(c.name)
    else if c.latest.None? then None
    else
      var latest := c.latest.value.name;
      if existing.Some? && Lookup(existing.value.labels, APP_COMPONENT_REVISION) == latest then Some(existing.value.name)
      else Some(latest)
  }

  // ---------- scopes ----------

  function ReadScopes(s: Server, keys: seq<Key>): Option<seq<ScopeCopy>> {
    if keys == [] then Some([])
    else
      var before, k := ReadScopes(s, keys[..|keys| - 1]), keys[|keys| - 1];
      if before.None? || k !in s.scopes then None else Some(before.value + [ScopeCopy(k, s.scopes[k])])
  }

  // ---------- components and applications ----------

  function RenderEntry(cat: Catalogue, app: AppSpec, status: seq<WorkloadStatus>, s: Server, e: ComponentEntry): (r: Option<Rendered>)
    ensures r.Some? ==> |r.value.traits| == |e.traits|
  {
    var found := GetComponent(cat, e);
    if found.None? then None
    else
      var c, revision, component := found.value.0, found.value.1, ComponentOf(e);
      var d := cat.draw(c.spec, e.parameters);
      var traits := RenderTraits(cat, app, status, component, revision, e.traits);
      if d.None? || traits.None? then None
      else
        var name := InstanceName(d.value, traits.value.revisionEnabled, c, ExistingWorkload(status, s, c.name, d.value));
        var scopes := ReadScopes(s, e.scopes);
        if name.None? || scopes.None? then None
        else
          Some(Rendered(component, revision, Manifested(app, d.value, name.value, component, revision, WORKLOAD_RESOURCE),
                        false, traits.value.traits, traits.value.revisionEnabled, scopes.value))
  }

  /** One rendered workload for each entry, with as many traits. */
  predicate Aligned(es: seq<ComponentEntry>, ws: seq<Rendered>) {
    |es| == |ws| && forall i :: 0 <= i < |es| ==> |es[i].traits| == |ws[i].traits|
  }

  function RenderAll(cat: Catalogue, app: AppSpec, status: seq<WorkloadStatus>, s: Server, es: seq<ComponentEntry>): (r: Option<seq<Rendered>>)
    ensures r.Some? ==> Aligned(es, r.value)
  {
    if es == [] then Some([])
    else
      var before := RenderAll(cat, app, status, s, es[..|es| - 1]);
      var last := RenderEntry(cat, app, status, s, es[|es| - 1]);
      if before.None? || last.None? then None else Some(before.value + [last.value])
  }

  // ---------- the renderer ----------

  class Unstructured {
    const draft: Draft
    var name: string

    constructor (draft: Draft)
      ensures this.draft == draft && name == draft.name
    {
      this.draft := draft;
      name := draft.name;
    }

    /** Returns whether it succeeded. */
    method SetWorkloadInstanceName(revisionEnabled: bool, c: Revisions.Component, existing: Option<Existing>) returns (ok: bool)
      requires name == draft.name
      modifies this
      ensures (if ok then Some(name) else None) == InstanceName(draft, revisionEnabled, c, existing)
    {
      if name != "" {
        return true;
      }
      if revisionEnabled {
        if c.latest.None? {
          return false;
        }
        var componentLastRevision := c.latest.value.name;
        if existing.Some? && Lookup(existing.value.labels, APP_COMPONENT_REVISION) == componentLastRevision {
          name := existing.value.name;
          return true;
        }
        name := componentLastRevision;
        return true;
      }
      name := c.name;
      return true;
    }
  }

  class Components {
    const cat: Catalogue
    const server: Server

    constructor (cat: Catalogue, server: Server)
      ensures this.cat == cat && this.server == server
    {
      this.cat := cat;
      this.server := server;
    }

    method GetTraitName(status: seq<WorkloadStatus>, component: string, ct: ComponentTrait, def: TraitDefinition)
      returns (name: string)
      ensures name == TraitName(cat, status, component, ct, def)
    {
      if |ct.draft.name| > 0 {
        return ct.draft.name;
      }
      name := "";
      for i := 0 to |status|
        invariant name == RecordedTraitName(status[..i], component, ct.draft.apiVersion, ct.draft.kind)
      {
        assert status[..i + 1][..i] == status[..i];
        if status[i].componentName != component {
          continue;
        }
        var before := name;
        var traits := status[i].traits;
        for j := 0 to |traits|
          invariant name == LastTraitName(traits[..j], ct.draft.apiVersion, ct.draft.kind, before)
        {
          assert traits[..j + 1][..j] == traits[..j];
          var k := traits[j].reference.key;
          if k.apiVersion == ct.draft.apiVersion && k.kind == ct.draft.kind {
            name := k.name;
          }
        }
        assert traits[..|traits|] == traits;
      }
      assert status[..|status|] == status;
      if |name| == 0 {
        name := GenTraitName(cat, component, ct, BeforeDot(def.name));
      }
    }

    method GetExistingWorkload(status: seq<WorkloadStatus>, component: string, d: Draft) returns (existing: Option<Existing>)
      ensures existing == ExistingWorkload(status, server, component, d)
    {
      var name := "";
      for i := 0 to |status|
        invariant name == RecordedWorkloadName(status[..i], component)
      {
        assert status[..i + 1][..i] == status[..i];
        if status[i].componentName != component {
          continue;
        }
        name := status[i].reference.key.name;
      }
      assert status[..|status|] == status;
      existing := Some(Existing("", map[]));
      if name != "" {
        var k := Key(d.apiVersion, d.kind, name);
        if k !in server.objects {
          return None;
        }
        existing := Some(Existing(name, server.objects[k].body.labels));
      }
    }

    method Label(app: AppSpec, d: Draft, name: string, component: string, revision: string, resourceType: string)
      returns (m: Manifest)
      ensures m == Manifested(app, d, name, component, revision, resourceType)
    {
      var meta := new Metadata(d.labels, d.annotations);
      meta.Stamp(Info(app.name, component, revision, resourceType), app.generation, app.labels, app.annotations);
      m := Manifest(Key(d.apiVersion, d.kind, name), Body(Some(app.uid), meta.labels, meta.annotations, d.content));
    }

    method RenderEachTrait(app: AppSpec, status: seq<WorkloadStatus>, component: string, revision: string, cts: seq<ComponentTrait>)
      returns (r: Option<RenderedTraits>)
      ensures r == RenderTraits(cat, app, status, component, revision, cts)
    {
      var traits, revisionEnabled := [], false;
      for i := 0 to |cts|
        invariant RenderTraits(cat, app, status, component, revision, cts[..i]) == Some(RenderedTraits(traits, revisionEnabled))
      {
        assert cts[..i + 1][..i] == cts[..i];
        var def := DefinitionOf(cat, cts[i]);
        if def.None? {
          TraitFailureIsFinal(app, status, component, revision, cts, i + 1);
          return None;
        }
        var name := GetTraitName(status, component, cts[i], def.value);
        var m := Label(app, cts[i].draft, name, component, revision, TRAIT_RESOURCE);
        traits := traits + [RenderedTrait(m, false, def.value.name == DUMMY && def.value.referenceName == DUMMY)];
        revisionEnabled := revisionEnabled || def.value.revisionEnabled;
      }
      assert cts[..|cts|] == cts;
      return Some(RenderedTraits(traits, revisionEnabled));
    }

    lemma {:induction false} TraitFailureIsFinal(
      app: AppSpec, status: seq<WorkloadStatus>, component: string, revision: string, cts: seq<ComponentTrait>, i: nat)
      requires i <= |cts| && RenderTraits(cat, app, status, component, revision, cts[..i]).None?
      ensures RenderTraits(cat, app, status, component, revision, cts).None?
      decreases |cts| - i
    {
      if i == |cts| {
        assert cts[..i] == cts;
      } else {
        assert cts[..i + 1][..i] == cts[..i];
        TraitFailureIsFinal(app, status, component, revision, cts, i + 1);
      }
    }

    method ReadEachScope(keys: seq<Key>) returns (r: Option<seq<ScopeCopy>>)
      ensures r == ReadScopes(server, keys)
    {
      var copies := [];
      for i := 0 to |keys|
        invariant ReadScopes(server, keys[..i]) == Some(copies)
      {
        assert keys[..i + 1][..i] == keys[..i];
        if keys[i] !in server.scopes {
          ScopeFailureIsFinal(keys, i + 1);
          return None;
        }
        copies := copies + [ScopeCopy(keys[i], server.scopes[keys[i]])];
      }
      assert keys[..|keys|] == keys;
      return Some(copies);
    }

    lemma {:induction false} ScopeFailureIsFinal(keys: seq<Key>, i: nat)
      requires i <= |keys| && ReadScopes(server, keys[..i]).None?
      ensures ReadScopes(server, keys).None?
      decreases |keys| - i
    {
      if i == |keys| {
        assert keys[..i] == keys;
      } else {
        assert keys[..i + 1][..i] == keys[..i];
        ScopeFailureIsFinal(keys, i + 1);
      }
    }

    method RenderComponent(app: AppSpec, status: seq<WorkloadStatus>, e: ComponentEntry) returns (r: Option<Rendered>)
      ensures r == RenderEntry(cat, app, status, server, e)
    {
      var found := GetComponent(cat, e);
      if found.None? {
        return None;
      }
      var (c, revision) := found.value;
      var component := ComponentOf(e);
      var d := cat.draw(c.spec, e.parameters);
      if d.None? {
        return None;
      }
      var traits := RenderEachTrait(app, status, component, revision, e.traits);
      if traits.None? {
        return None;
      }
      var existing := GetExistingWorkload(status, c.name, d.value);
      var w := new Unstructured(d.value);
      var named := w.SetWorkloadInstanceName(traits.value.revisionEnabled, c, existing);
      if !named {
        return None;
      }
      var scopes := ReadEachScope(e.scopes);
      if scopes.None? {
        return None;
      }
      var m := Label(app, d.value, w.name, component, revision, WORKLOAD_RESOURCE);
      return Some(Rendered(component, revision, m, false, traits.value.traits, traits.value.revisionEnabled, scopes.value));
    }

    method Render(app: AppSpec, status: seq<WorkloadStatus>) returns (r: Option<seq<Rendered>>)
      ensures r == RenderAll(cat, app, status, server, app.components)
    {
      var es, ws := app.components, [];
      for i := 0 to |es|
        invariant RenderAll(cat, app, status, server, es[..i]) == Some(ws)
      {
        assert es[..i + 1][..i] == es[..i];
        var w := RenderComponent(app, status, es[i]);
        if w.None? {
          FailureIsFinal(app, status, es, i + 1);
          return None;
        }
        ws := ws + [w.value];
      }
      assert es[..|es|] == es;
      return Some(ws);
    }

    lemma {:induction false} FailureIsFinal(app: AppSpec, status: seq<WorkloadStatus>, es: seq<ComponentEntry>, i: nat)
      requires i <= |es| && RenderAll(cat, app, status, server, es[..i]).None?
      ensures RenderAll(cat, app, status, server, es).None?
      decreases |es| - i
    {
      if i == |es| {
        assert es[..i] == es;
      } else {
        assert es[..i + 1][..i] == es[..i];
        FailureIsFinal(app, status, es, i + 1);
      }
    }
  }
}
