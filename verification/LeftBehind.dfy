/** A small life of an application, step by step: its only status write fails, it is deleted, and its workload
    stays in the scope. The same application on a network that works meets everything the theorems ask for. */
module LeftBehind {
  import opened Wrappers
  import opened Kube
  import opened Labels
  import opened Cluster
  import opened Apply
  import opened Rendering
  import opened Reconcile
  import opened RenderedFacts
  import opened ScopeMembership
  import opened Lifecycle
  import opened Stability
  import Revisions
  import Dependencies
  import FieldPaths
  import Gating
  import Trees
  import GarbageCollection
  import Convergence

  const SCOPE := Key("core", "HealthScope", "health")
  const WORKLOAD := Key("apps", "Deployment", "web")
  const DRAFT := Draft("apps", "Deployment", "", map[], map[], map[])
  const ENTRY := ComponentEntry("web", "", "", [], [SCOPE], [], [])
  const SPEC := AppSpec("app", "uid", "1", map[], map[], [ENTRY])
  const COMPONENT := Revisions.Component("web", "spec", None)

  function TheCatalogue(): Catalogue {
    Catalogue(map["web" := COMPONENT], map[], map[], (spec, parameters) => Some(DRAFT), draft => None, ct => "")
  }

  function EnvWith(net: Network): Env {
    Env(TheCatalogue(), false, net, false, {}, FieldPaths.Null)
  }

  function Start(): World {
    World(App(SPEC, [], false, false, true),
          Server(map[], map[SCOPE := Scope(0, Some([]))], map[("core", "HealthScope") := "spec.workloadRefs"], 0))
  }

  /** With the finalizer registered, at this time. */
  function Registered(clock: nat): World {
    World(Start().app.(finalizer := true), Start().server.(clock := clock))
  }

  function TheRendering(): Rendered {
    Rendered("web", "", Manifested(SPEC, DRAFT, "web", "web", "", WORKLOAD_RESOURCE), false, [], false,
             [ScopeCopy(SCOPE, Scope(0, Some([])))])
  }

  /** A lone workload without inputs, through the gate. */
  lemma LoneNode(n: Dependencies.Node, snap: Dependencies.Snapshot)
    requires n.inputs == []
    ensures var app := [Dependencies.Component(n, [])];
            Dependencies.Render(app, snap, FieldPaths.Null)
              == Some(Dependencies.Rendering([Dependencies.Gated(n.content, false)], []))
  {
    var app := [Dependencies.Component(n, [])];
    var none, sources := Dependencies.Rendering([], []), Dependencies.SourcesOf(app);
    var g := Dependencies.GateNode(n, sources, snap, FieldPaths.Null).value;
    assert app[1..] == [] && Dependencies.Nodes(app) == [n] && [n][1..] == [];
    assert Dependencies.GateNodes(none, [n], sources, snap, FieldPaths.Null)
        == Dependencies.GateNodes(Dependencies.Extend(none, g), [n][1..], sources, snap, FieldPaths.Null);
    assert Dependencies.Extend(none, g) == Dependencies.Rendering([g.obj], []);
  }

  lemma ItIsRegained()
    ensures var w := TheRendering();
            Gating.RegainedAll([w], [Dependencies.Gated(Trees.TreeOf(w.manifest.key, w.manifest.body), false)]) == [w]
  {
    var w := TheRendering();
    var objects := [Dependencies.Gated(Trees.TreeOf(w.manifest.key, w.manifest.body), false)];
    Trees.ReadsBack(w.manifest.key, w.manifest.body);
    assert objects[Gating.Offset([w], 0)..Gating.Offset([w], 0) + 1 + |w.traits|] == objects;
    assert Gating.Regained(w, objects) == w;
  }

  /** Without inputs, dependency handling changes nothing. */
  lemma ItIsNotHeld(snap: Dependencies.Snapshot)
    ensures Gating.GateAll([ENTRY], [TheRendering()], snap, FieldPaths.Null) == Some([TheRendering()])
  {
    var w := TheRendering();
    var n := Gating.NodeOf(w.manifest, [], []);
    assert Gating.GraphOf([ENTRY], [w]) == [Dependencies.Component(n, [])];
    LoneNode(n, snap);
    ItIsRegained();
  }

  lemma ItIsDrawn(s: Server)
    requires s.scopes == Start().server.scopes
    ensures RenderAll(TheCatalogue(), SPEC, [], s, SPEC.components) == Some([TheRendering()])
  {
    var cat := TheCatalogue();
    assert [SCOPE][..0] == [] && [ENTRY][..0] == [];
    assert ReadScopes(s, [SCOPE]) == Some([] + [ScopeCopy(SCOPE, Scope(0, Some([])))]);
    assert [] + [ScopeCopy(SCOPE, Scope(0, Some([])))] == TheRendering().scopes;
    assert GetComponent(cat, ENTRY) == Some((COMPONENT, ""));
    assert RenderTraits(cat, SPEC, [], "web", "", ENTRY.traits) == Some(RenderedTraits([], false));
    assert InstanceName(DRAFT, false, COMPONENT, ExistingWorkload([], s, "web", DRAFT)) == Some("web");
    assert RenderEntry(cat, SPEC, [], s, ENTRY) == Some(TheRendering());
    assert RenderAll(cat, SPEC, [], s, []) == Some([]);
    assert RenderAll(cat, SPEC, [], s, [ENTRY]) == Some([] + [TheRendering()]);
    assert [] + [TheRendering()] == [TheRendering()];
  }

  /** The registered application renders its workload, whatever objects and definitions there are. */
  lemma ItRenders(net: Network, w: World)
    requires w.app == Registered(0).app && w.server.scopes == Start().server.scopes
    ensures RenderFor(EnvWith(net), w.app, Tick(w.server)) == Some([TheRendering()])
  {
    ItIsDrawn(Tick(w.server));
    ItIsNotHeld(Gating.SnapshotOf(Tick(w.server), {}));
  }

  /** The server when everything is applied: five requests later, with the workload in the scope. */
  predicate InPlace(s: Server, clock: nat) {
    && s.clock == clock && s.definitions == Start().server.definitions
    && s.scopes == map[SCOPE := Scope(1, Some([TypedReference(WORKLOAD, "")]))]
    && WORKLOAD in s.objects
  }

  lemma ItApplies(net: Network, clock: nat)
    requires forall n :: clock < n <= clock + 4 ==> net(n) == Works
    ensures var p := Synced(EnvWith(net), Registered(clock).app, Tick(Registered(clock).server), [TheRendering()]);
            p.result == Done && InPlace(p.server, clock + 5)
  {
    var env, s := EnvWith(net), Tick(Registered(clock).server);
    var c, w := ConfigFor(env, Registered(clock).app), TheRendering();
    var p := ApplyObject(c, w.manifest, true, s);
    assert p.result == Done && p.server.clock == clock + 3 && WORKLOAD in p.server.objects;
    assert ApplyTraits(c, [], p.server) == Progress(p.server, Done);
    var q := ApplyScope(c, WORKLOAD, w.scopes[0], p.server);
    assert [] + [TypedReference(WORKLOAD, "")] == [TypedReference(WORKLOAD, "")];
    assert q.server.scopes == p.server.scopes[SCOPE := Scope(1, Some([TypedReference(WORKLOAD, "")]))];
    assert q.result == Done && InPlace(q.server, clock + 5);
    assert w.scopes[1..] == [] && [w][1..] == [];
    assert ApplyScopes(c, WORKLOAD, w.scopes, p.server) == q;
    assert ApplyWorkload(c, w, s) == q;
    assert ApplyWorkloads(c, [w], s) == q;
    assert Applied(c, [], [w], s) == q;
    assert Collect(net, [], q.server) == q;
  }

  predicate RejectsOnly(net: Network, n: nat) {
    net(n) == Rejected && forall m :: m != n && 0 <= m <= 20 ==> net(m) == Works
  }

  /** The reconcile whose status is not written leaves the application as it was and the workload in the scope. */
  lemma SecondRound(net: Network)
    requires RejectsOnly(net, 7)
    ensures var v := Reconciled(EnvWith(net), Registered(2)); v.app == Registered(2).app && InPlace(v.server, 8)
  {
    ItRenders(net, Registered(2));
    ItApplies(net, 2);
  }

  lemma FirstRound(net: Network)
    requires RejectsOnly(net, 7)
    ensures Reconciled(EnvWith(net), Start()) == Registered(2)
  {
    assert SPEC.components[0].scopes != [];
  }

  lemma LastRound(net: Network, w: World)
    requires RejectsOnly(net, 7) && w.app == Registered(2).app.(deleting := true) && InPlace(w.server, 8)
    ensures var v := Reconciled(EnvWith(net), w); !v.app.alive && v.server.scopes == w.server.scopes
  {
    assert DereferenceAll(ConfigFor(EnvWith(net), w.app), [], Tick(w.server)) == Progress(Tick(w.server), Done);
  }

  lemma InPlaceHolds(s: Server, clock: nat)
    requires InPlace(s, clock)
    ensures Held(s, SCOPE, WORKLOAD) == 1
  {
    CountOne(TypedReference(WORKLOAD, ""), WORKLOAD);
  }

  lemma LifeOfFive(env: Env, a: World, b: World, c: World, d: World, e: World)
    requires IsNew(a, {WORKLOAD})
    requires Step(a, b, Round(env), {WORKLOAD}) && Step(b, c, Round(env), {WORKLOAD})
    requires Step(c, d, Delete, {WORKLOAD}) && Step(d, e, Round(env), {WORKLOAD})
    ensures IsLife([a, b, c, d, e], [Round(env), Round(env), Delete, Round(env)], {WORKLOAD})
  {
    var worlds, events := [a, b, c, d, e], [Round(env), Round(env), Delete, Round(env)];
    forall t: nat ensures StepAt(worlds, events, {WORKLOAD}, t) {
      if t < 4 { assert t == 0 || t == 1 || t == 2 || t == 3; }
    }
  }

  lemma ItStays(net: Network, c: World)
    requires RejectsOnly(net, 7) && c == Reconciled(EnvWith(net), Registered(2))
    requires c.app == Registered(2).app && InPlace(c.server, 8)
    ensures var e := Reconciled(EnvWith(net), c.(app := Deleting(c.app)));
            !e.app.alive && Held(e.server, SCOPE, WORKLOAD) > 0
  {
    var d := c.(app := Deleting(c.app));
    LastRound(net, d);
    InPlaceHolds(c.server, 8);
    HeldByScopes(c.server, Reconciled(EnvWith(net), d).server);
  }

  /** A reachable state in which the application is gone and a scope still refers to its workload. */
  lemma ReferencesCanBeLeftBehind(net: Network) returns (worlds: seq<World>, events: seq<Event>)
    requires RejectsOnly(net, 7)
    ensures IsLife(worlds, events, {WORKLOAD})
    ensures var last := worlds[|worlds| - 1]; !last.app.alive && Held(last.server, SCOPE, WORKLOAD) > 0
  {
    var env := EnvWith(net);
    var a, b := Start(), Registered(2);
    FirstRound(net);
    SecondRound(net);
    var c := Reconciled(env, b);
    var d := c.(app := Deleting(c.app));
    var e := Reconciled(env, d);
    ItStays(net, c);
    StepsOfIt(net, a, b, c, d, e);
    StartIsNew();
    LifeOfFive(env, a, b, c, d, e);
    worlds, events := [a, b, c, d, e], [Round(env), Round(env), Delete, Round(env)];
  }

  lemma StartIsNew()
    ensures IsNew(Start(), {WORKLOAD})
  {
    assert forall k :: Refs(Start().server, k) == [];
  }

  lemma StepsOfIt(net: Network, a: World, b: World, c: World, d: World, e: World)
    requires a == Start() && b == Registered(2) && b == Reconciled(EnvWith(net), a)
    requires c == Reconciled(EnvWith(net), b) && c.app == b.app && InPlace(c.server, 8)
    requires d == c.(app := Deleting(c.app)) && e == Reconciled(EnvWith(net), d)
    ensures Step(a, b, Round(EnvWith(net)), {WORKLOAD}) && Step(b, c, Round(EnvWith(net)), {WORKLOAD})
    ensures Step(c, d, Delete, {WORKLOAD}) && Step(d, e, Round(EnvWith(net)), {WORKLOAD})
  {
    OursAlways(net, a);
    OursAlways(net, b);
    OursAlways(net, d);
  }

  /** Whatever the server holds and whatever is recorded, the workload is named after its component. */
  lemma OursAlways(net: Network, w: World)
    requires w.app.spec == SPEC
    ensures OnlyOurs(EnvWith(net), w, {WORKLOAD})
  {
    var env, s := EnvWith(net), Tick(w.server);
    if RenderFor(env, w.app, s).Some? {
      RoundDraws(env, w.app, s);
      var ws := RenderFor(env, w.app, s).value;
      assert DrawsEntry(BasisOf(env, w.app, s), ENTRY, ws[0]);
      assert RenderTraits(env.cat, SPEC, w.app.status, "web", "", []) == Some(RenderedTraits([], false));
      assert RenderEntry(env.cat, SPEC, w.app.status, s, ENTRY).value.manifest.key == WORKLOAD;
    }
  }

  lemma ItSucceeds(net: Network)
    requires forall n :: net(n) == Works
    ensures Syncing(EnvWith(net), Registered(0)) && Succeeded(EnvWith(net), Registered(0), [TheRendering()])
  {
    ItApplies(net, 0);
  }

  lemma ItIsWellFormed(net: Network)
    ensures WellStored(EnvWith(net).cat) && WellFormedSpec(Registered(0).app.spec.components)
    ensures GarbageCollection.Bare(Registered(0).app.status)
  {
  }

  lemma ItSharesNothing(w: World, ws: seq<Rendered>)
    requires w.app.spec == SPEC && ws == [TheRendering()]
    ensures forall i :: 0 <= i < |ws| ==> KeepsItsLabels(w.app.spec.components, ws, i)
  {
  }

  /** On a network that works the same round is a good one, and afterwards the reference is recorded. */
  lemma GoodRoundsExist(net: Network)
    requires forall n :: net(n) == Works
    ensures GoodRound(EnvWith(net), Registered(0), [TheRendering()])
  {
    ItRenders(net, Registered(0));
    ItSucceeds(net);
    ItIsWellFormed(net);
    ItSharesNothing(Registered(0), [TheRendering()]);
    IsGoodRound(EnvWith(net), Registered(0), [TheRendering()]);
  }

  function ThePlan(): Convergence.Plan {
    Convergence.Plan(TheCatalogue(), Registered(0), [TheRendering()])
  }

  lemma NothingTakesItsPlace()
    ensures Convergence.LeftAlone(ThePlan(), TheRendering())
  {
    var k := Convergence.RecordedKey([], TheRendering());
    assert k.name == "" && TheRendering().manifest.key.name == "web";
  }

  /** And it is a plan: everything that convergence asks of a spec. */
  lemma PlansExist(net: Network)
    ensures Convergence.IsPlan(ThePlan())
  {
    ItIsDrawn(Convergence.FirstBasis(ThePlan()).server);
    ItIsWellFormed(net);
    ItSharesNothing(Registered(0), [TheRendering()]);
    NothingTakesItsPlace();
  }
}
