/** One reconcile of an application: finalizers, rendering, applying, garbage collection and status. */
module Reconcile {
  import opened Wrappers
  import opened Kube
  import opened Names
  import opened Cluster
  import opened AppStatus
  import opened Apply
  import opened Rendering
  import opened Applicator
  import FieldPaths
  import Gating

  /** The application as the server holds it; alive turns false when it is deleted for good. */
  datatype App = App(spec: AppSpec, status: seq<WorkloadStatus>, finalizer: bool, deleting: bool, alive: bool)

  datatype World = World(app: App, server: Server)

  /** What one reconcile meets: the catalogue, the network, a render that fails for reasons of its own, the objects
      that cannot be read while dependencies are handled, and the application as a tree. */
  datatype Env = Env(
    cat: Catalogue,
    once: bool,
    net: Network,
    renderFails: bool,
    unreadable: set<Key>,
    tree: FieldPaths.Value)

  const DUMMY_TRAIT_MESSAGE := "No valid TraitDefinition found, all framework capabilities will work as default or disabled"

  // ---------- status ----------

  function Reference(k: Key): TypedReference {
    TypedReference(k, "")
  }

  function TraitStatus(t: RenderedTrait): WorkloadTrait {
    WorkloadTrait("", Reference(t.manifest.key), if t.dummy then DUMMY_TRAIT_MESSAGE else "")
  }

  /** Workload.Status: it never records a UID. */
  function StatusOf(w: Rendered): WorkloadStatus {
    WorkloadStatus("", w.componentName, w.revisionName, Reference(w.manifest.key),
      seq(|w.traits|, i requires 0 <= i < |w.traits| => TraitStatus(w.traits[i])),
      seq(|w.scopes|, i requires 0 <= i < |w.scopes| => WorkloadScope("", Reference(w.scopes[i].key))))
  }

  function StatusesOf(ws: seq<Rendered>): seq<WorkloadStatus> {
    seq(|ws|, i requires 0 <= i < |ws| => StatusOf(ws[i]))
  }

  // ---------- garbage collection ----------

  function TraitRefs(ts: seq<RenderedTrait>): set<TypedReference> {
    set i | 0 <= i < |ts| :: Reference(ts[i].manifest.key)
  }

  function RenderedRefs(ws: seq<Rendered>): set<TypedReference> {
    if ws == [] then {}
    else RenderedRefs(ws[..|ws| - 1]) + {Reference(ws[|ws| - 1].manifest.key)} + TraitRefs(ws[|ws| - 1].traits)
  }

  function EligibleTraits(ts: seq<WorkloadTrait>, kept: set<TypedReference>): seq<Key> {
    if ts == [] then []
    else
      var last := ts[|ts| - 1].reference;
      EligibleTraits(ts[..|ts| - 1], kept) + (if last in kept then [] else [last.key])
  }

  /** The objects to collect: recorded references, compared whole, that are not rendered. Workloads named after
      a revision are spared; their traits are not. */
  function Eligible(status: seq<WorkloadStatus>, kept: set<TypedReference>): seq<Key> {
    if status == [] then []
    else
      var st := status[|status| - 1];
      var own := if st.reference in kept || IsRevisionWorkload(st.componentName, st.reference.key.name) then []
                 else [st.reference.key];
      Eligible(status[..|status| - 1], kept) + own + EligibleTraits(st.traits, kept)
  }

  /** Deleting them in order; one that is gone already is no error. */
  function Collect(net: Network, ks: seq<Key>, s: Server): Progress
    decreases |ks|
  {
    if ks == [] then Progress(s, Done)
    else
      var o := DeleteObject(net, s, ks[0]);
      if o.reply != Done && o.reply != NotFound then Progress(o.server, o.reply) else Collect(net, ks[1..], o.server)
  }

  // ---------- one reconcile ----------

  predicate HasScopes(spec: AppSpec) {
    exists i :: 0 <= i < |spec.components| && spec.components[i].scopes != []
  }

  /** Writing the application back. */
  function Write(net: Network, s: Server, stored: App, next: App): World {
    World(if net(s.clock) == Rejected then stored else next, Tick(s))
  }

  /** After an error: the condition is written, and the deferred function writes the status once more; neither
      changes the recorded workloads. */
  function GiveUp(app: App, s: Server): World {
    World(app, Tick(Tick(s)))
  }

  function RenderFor(env: Env, app: App, s: Server): Option<seq<Rendered>> {
    if env.renderFails then None
    else match RenderAll(env.cat, app.spec, app.status, s, app.spec.components)
      case None => None
      case Some(ws) => Gating.GateAll(app.spec.components, ws, Gating.SnapshotOf(s, env.unreadable), env.tree)
  }

  function ConfigFor(env: Env, app: App): Config {
    Config(app.spec.uid, env.once, env.net)
  }

  /** How far a reconcile got, up to garbage collection. */
  function Synced(env: Env, app: App, s: Server, ws: seq<Rendered>): Progress {
    var p := Applied(ConfigFor(env, app), app.status, ws, s);
    if p.result != Done then p else Collect(env.net, Eligible(app.status, RenderedRefs(ws)), p.server)
  }

  function Sync(env: Env, app: App, s: Server): World {
    var ws := RenderFor(env, app, s);
    if ws.None? then GiveUp(app, s)
    else
      var p := Synced(env, app, s, ws.value);
      if p.result != Done then GiveUp(app, p.server)
      else Write(env.net, p.server, app, app.(status := Patched(StatusesOf(ws.value), app.status)))
  }

  function Finish(env: Env, app: App, s: Server): World {
    if !app.finalizer then Write(env.net, s, app, app.(alive := false))
    else
      var p := DereferenceAll(ConfigFor(env, app), app.status, s);
      if p.result != Done then World(app, Tick(p.server))
      else Write(env.net, p.server, app, app.(finalizer := false, alive := false))
  }

  function Reconciled(env: Env, w: World): World {
    var s := Tick(w.server);
    if env.net(w.server.clock) != Works || !w.app.alive then World(w.app, s)
    else if w.app.deleting then Finish(env, w.app, s)
    else if !w.app.finalizer && HasScopes(w.app.spec) then Write(env.net, s, w.app, w.app.(finalizer := true))
    else Sync(env, w.app, s)
  }

  // ---------- the reconciler ----------

  method AppHasScope(spec: AppSpec) returns (r: bool)
    ensures r == HasScopes(spec)
  {
    for i := 0 to |spec.components|
      invariant forall j :: 0 <= j < i ==> spec.components[j].scopes == []
    {
      if |spec.components[i].scopes| > 0 {
        return true;
      }
    }
    return false;
  }

  method AppliedReferences(ws: seq<Rendered>) returns (applied: set<TypedReference>)
    ensures applied == RenderedRefs(ws)
  {
    applied := {};
    for i := 0 to |ws|
      invariant applied == RenderedRefs(ws[..i])
    {
      assert ws[..i + 1][..i] == ws[..i];
      applied := applied + {Reference(ws[i].manifest.key)};
      var traits := ws[i].traits;
      for j := 0 to |traits|
        invariant applied == RenderedRefs(ws[..i]) + {Reference(ws[i].manifest.key)} + TraitRefs(traits[..j])
      {
        assert TraitRefs(traits[..j + 1]) == TraitRefs(traits[..j]) + {Reference(traits[j].manifest.key)} by {
          AnotherTrait(traits, j);
        }
        applied := applied + {Reference(traits[j].manifest.key)};
      }
      assert traits[..|traits|] == traits;
    }
    assert ws[..|ws|] == ws;
  }

  lemma AnotherTrait(ts: seq<RenderedTrait>, j: nat)
    requires j < |ts|
    ensures TraitRefs(ts[..j + 1]) == TraitRefs(ts[..j]) + {Reference(ts[j].manifest.key)}
  {
    var before, after := ts[..j], ts[..j + 1];
    forall r ensures r in TraitRefs(after) <==> r in TraitRefs(before) || r == Reference(ts[j].manifest.key) {
      if i :| 0 <= i < |after| && Reference(after[i].manifest.key) == r {
        if i < j { assert before[i] == after[i]; }
      }
      if i :| 0 <= i < |before| && Reference(before[i].manifest.key) == r { assert after[i] == before[i]; }
      assert after[j] == ts[j];
    }
  }

  method EligibleFor(status: seq<WorkloadStatus>, ws: seq<Rendered>) returns (eligible: seq<Key>)
    ensures eligible == Eligible(status, RenderedRefs(ws))
  {
    var applied := AppliedReferences(ws);
    eligible := [];
    for i := 0 to |status|
      invariant eligible == Eligible(status[..i], applied)
    {
      assert status[..i + 1][..i] == status[..i];
      var st := status[i];
      ghost var before := eligible;
      ghost var own := if st.reference in applied || IsRevisionWorkload(st.componentName, st.reference.key.name) then []
                       else [st.reference.key];
      if st.reference !in applied && !IsRevisionWorkload(st.componentName, st.reference.key.name) {
        eligible := eligible + [st.reference.key];
      }
      assert eligible == before + own;
      for j := 0 to |st.traits|
        invariant eligible == before + own + EligibleTraits(st.traits[..j], applied)
      {
        assert st.traits[..j + 1][..j] == st.traits[..j];
        if st.traits[j].reference !in applied {
          eligible := eligible + [st.traits[j].reference.key];
        }
      }
      assert st.traits[..|st.traits|] == st.traits;
    }
    assert status[..|status|] == status;
  }

  class Reconciler {
    const client: Client
    const once: bool
    var app: App

    constructor (client: Client, once: bool, app: App)
      ensures this.client == client && this.once == once && this.app == app
    {
      this.client := client;
      this.once := once;
      this.app := app;
    }

    ghost function State(): World
      reads this, client
    {
      World(app, client.server)
    }

    function EnvOf(cat: Catalogue, renderFails: bool, unreadable: set<Key>, tree: FieldPaths.Value): Env {
      Env(cat, once, client.net, renderFails, unreadable, tree)
    }

    /** One request that writes the application; the client's copy of the server does not hold applications. */
    method WriteApp(next: App)
      modifies this`app, client
      ensures State() == Write(client.net, old(client.server), old(app), next)
    {
      if client.net(client.server.clock) != Rejected {
        app := next;
      }
      client.server := Tick(client.server);
    }

    method CollectAll(ks: seq<Key>) returns (err: Reply)
      modifies client
      ensures Progress(client.server, err) == Collect(client.net, ks, old(client.server))
    {
      for i := 0 to |ks|
        invariant Collect(client.net, ks, old(client.server)) == Collect(client.net, ks[i..], client.server)
      {
        assert ks[i..][0] == ks[i] && ks[i..][1..] == ks[i + 1..];
        err := client.Delete(ks[i]);
        if err != Done && err != NotFound {
          return;
        }
      }
      err := Done;
    }

    method UpdateStatus(ac: App, ws: seq<Rendered>) returns (next: App)
      ensures next == ac.(status := Patched(StatusesOf(ws), ac.status))
    {
      var workloads := [];
      for i := 0 to |ws|
        invariant workloads == StatusesOf(ws[..i])
      {
        workloads := workloads + [StatusOf(ws[i])];
      }
      assert ws[..|ws|] == ws;
      var status := new StatusHolder(workloads);
      status.PatchExtraStatusField(ac.status);
      next := ac.(status := status.workloads);
    }

    method RenderWith(cat: Catalogue, renderFails: bool, unreadable: set<Key>, tree: FieldPaths.Value)
      returns (ws: Option<seq<Rendered>>)
      ensures ws == RenderFor(EnvOf(cat, renderFails, unreadable, tree), app, client.server)
    {
      if renderFails {
        return None;
      }
      var components := new Components(cat, client.server);
      ws := components.Render(app.spec, app.status);
      if ws.Some? {
        var snapshot := Gating.SnapshotOf(client.server, unreadable);
        ws := Gating.HandleDependencies(app.spec.components, ws.value, snapshot, tree);
      }
    }

    method SyncWith(cat: Catalogue, renderFails: bool, unreadable: set<Key>, tree: FieldPaths.Value)
      modifies this`app, client
      ensures State() == Sync(EnvOf(cat, renderFails, unreadable, tree), old(app), old(client.server))
    {
      var ws := RenderWith(cat, renderFails, unreadable, tree);
      if ws.None? {
        WriteApp(app);
        WriteApp(app);
        return;
      }
      var workloads := new Workloads(client, app.spec.uid, once);
      var err := workloads.Apply(app.status, ws.value);
      if err == Done {
        var eligible := EligibleFor(app.status, ws.value);
        err := CollectAll(eligible);
      }
      if err != Done {
        WriteApp(app);
        WriteApp(app);
        return;
      }
      var next := UpdateStatus(app, ws.value);
      WriteApp(next);
    }

    method Reconcile(cat: Catalogue, renderFails: bool, unreadable: set<Key>, tree: FieldPaths.Value)
      modifies this`app, client
      ensures State() == Reconciled(EnvOf(cat, renderFails, unreadable, tree), old(State()))
    {
      var readable := client.net(client.server.clock) == Works;
      client.server := Tick(client.server);
      if !readable || !app.alive {
        return;
      }
      if app.deleting {
        var workloads := new Workloads(client, app.spec.uid, once);
        var err, kept := workloads.Finalize(app.finalizer, app.status);
        if err != Done {
          WriteApp(app);
        } else {
          WriteApp(app.(finalizer := kept, alive := false));
        }
        return;
      }
      if !app.finalizer {
        var scoped := AppHasScope(app.spec);
        if scoped {
          WriteApp(app.(finalizer := true));
          return;
        }
      }
      SyncWith(cat, renderFails, unreadable, tree);
    }
  }
}
