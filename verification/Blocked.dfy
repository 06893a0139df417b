/** Deletion that never ends: a scope that does not ask for references is joined without a word and cannot be left. */
module Blocked {
  import opened Wrappers
  import opened Kube
  import opened Cluster
  import opened AppStatus
  import opened Apply
  import opened Reconcile
  import opened ScopeMembership
  import opened Lifecycle
  import opened LeftBehind

  /** The application waits for its finalizer, and has recorded a reference in a scope that cannot be left. */
  predicate Blocks(w: World, x: Key, k: Key) {
    w.app.alive && w.app.deleting && w.app.finalizer && StatusPair(w.app.status, x, k) && !Leavable(w.server, k)
  }

  // ---------- for ever ----------

  lemma RemoveBlocked(c: Config, x: Key, k: Key, s: Server, blocked: Key)
    requires !Leavable(s, blocked)
    ensures !Leavable(RemoveScope(c, x, k, s).server, blocked)
    ensures k == blocked ==> RemoveScope(c, x, k, s).result != Done
  {
  }

  lemma {:induction false} RemoveAllBlocked(c: Config, x: Key, scopes: seq<WorkloadScope>, s: Server, blocked: Key)
    requires !Leavable(s, blocked)
    ensures !Leavable(RemoveScopes(c, x, scopes, s).server, blocked)
    ensures HasRef(scopes, blocked) ==> RemoveScopes(c, x, scopes, s).result != Done
    decreases |scopes|
  {
    if scopes != [] {
      var p := RemoveScope(c, x, scopes[0].reference.key, s);
      RemoveBlocked(c, x, scopes[0].reference.key, s, blocked);
      if p.result == Done { RemoveAllBlocked(c, x, scopes[1..], p.server, blocked); }
    }
  }

  /** However the requests fare, finalizing ends in an error. */
  lemma {:induction false} DereferenceBlocked(c: Config, status: seq<WorkloadStatus>, s: Server, x: Key, blocked: Key)
    requires !Leavable(s, blocked)
    ensures !Leavable(DereferenceAll(c, status, s).server, blocked)
    ensures StatusPair(status, x, blocked) ==> DereferenceAll(c, status, s).result != Done
    decreases |status|
  {
    if status != [] {
      var p := RemoveScopes(c, status[0].reference.key, status[0].scopes, s);
      RemoveAllBlocked(c, status[0].reference.key, status[0].scopes, s, blocked);
      if p.result == Done { DereferenceBlocked(c, status[1..], p.server, x, blocked); }
    }
  }

  lemma RoundStaysBlocked(env: Env, w: World, x: Key, k: Key)
    requires Blocks(w, x, k)
    ensures Blocks(Reconciled(env, w), x, k)
  {
    DereferenceBlocked(ConfigFor(env, w.app), w.app.status, Tick(w.server), x, k);
  }

  lemma StepStaysBlocked(w: World, v: World, e: Event, ours: set<Key>, x: Key, k: Key)
    requires Step(w, v, e, ours) && Blocks(w, x, k) && (e.Others? ==> !Leavable(v.server, k))
    ensures Blocks(v, x, k)
  {
    match e {
      case Round(env) => RoundStaysBlocked(env, w, x, k);
      case Others => TextsKeepPairs(w.app.status, v.app.status, x, k);
      case Edit(_) =>
      case Delete =>
    }
  }

  /** As long as nobody makes the scope one that can be left, no number of reconciles releases the application, on
      whatever network. */
  lemma {:induction false} BlockedForEver(
    worlds: seq<World>, events: seq<Event>, ours: set<Key>, a: nat, b: nat, x: Key, k: Key)
    requires IsLife(worlds, events, ours) && a <= b < |worlds| && Blocks(worlds[a], x, k)
    requires forall t :: a <= t < b && events[t].Others? ==> !Leavable(worlds[t + 1].server, k)
    ensures Blocks(worlds[b], x, k)
  {
    if a < b {
      BlockedForEver(worlds, events, ours, a, b - 1, x, k);
      assert StepAt(worlds, events, ours, b - 1);
      StepStaysBlocked(worlds[b - 1], worlds[b], events[b - 1], ours, x, k);
    }
  }

  // ---------- a life that gets there ----------

  /** The scope's definition names no field for references. */
  function Unasked(w: World): World {
    w.(server := w.server.(definitions := map[("core", "HealthScope") := ""]))
  }

  lemma LivesOn(worlds: seq<World>, events: seq<Event>, ours: set<Key>, e: Event, v: World)
    requires IsLife(worlds, events, ours) && Step(worlds[|worlds| - 1], v, e, ours)
    ensures IsLife(worlds + [v], events + [e], ours)
  {
    var ws, es := worlds + [v], events + [e];
    forall t: nat ensures StepAt(ws, es, ours, t) {
      if t < |events| { assert StepAt(worlds, events, ours, t); }
    }
  }

  /** The application is registered. */
  lemma FirstIsRegistered(net: Network)
    requires forall n :: net(n) == Works
    ensures Reconciled(EnvWith(net), Unasked(Start())) == Unasked(Registered(2))
  {
    assert SPEC.components[0].scopes != [];
  }

  /** Its workload is applied, and the scope is passed over without an error. */
  lemma ItAppliesUnasked(net: Network)
    requires forall n :: net(n) == Works
    ensures var w := Unasked(Registered(2));
            var p := Synced(EnvWith(net), w.app, Tick(w.server), [TheRendering()]);
            p.result == Done && p.server.scopes == w.server.scopes && p.server.definitions == w.server.definitions
  {
    var env, world := EnvWith(net), Unasked(Registered(2));
    var s, c, w := Tick(world.server), ConfigFor(env, world.app), TheRendering();
    var p := ApplyObject(c, w.manifest, true, s);
    assert p.result == Done && p.server.scopes == s.scopes && p.server.definitions == s.definitions;
    assert ApplyTraits(c, [], p.server) == Progress(p.server, Done);
    var q := ApplyScope(c, WORKLOAD, w.scopes[0], p.server);
    assert q.result == Done && q.server.scopes == s.scopes && q.server.definitions == s.definitions;
    assert w.scopes[1..] == [] && [w][1..] == [];
    assert ApplyScopes(c, WORKLOAD, w.scopes, p.server) == q;
    assert ApplyWorkload(c, w, s) == q;
    assert ApplyWorkloads(c, [w], s) == q;
    assert Applied(c, [], [w], s) == q;
    assert Collect(net, [], q.server) == q;
  }

  lemma SuccessRecordsPair(env: Env, w: World, ws: seq<Rendered>, x: Key, k: Key)
    requires (forall n :: env.net(n) == Works) && Syncing(env, w) && RenderFor(env, w.app, Tick(w.server)) == Some(ws)
    requires Synced(env, w.app, Tick(w.server), ws).result == Done && RenderedPair(ws, x, k)
    ensures var v, p := Reconciled(env, w), Synced(env, w.app, Tick(w.server), ws);
            && v.app == w.app.(status := v.app.status) && StatusPair(v.app.status, x, k)
            && v.server.scopes == p.server.scopes && v.server.definitions == p.server.definitions
  {
    RenderedPairsAreRecorded(ws, w.app.status, x, k);
  }

  lemma ItSyncs(net: Network)
    requires forall n :: net(n) == Works
    ensures Syncing(EnvWith(net), Unasked(Registered(2)))
  {
  }

  lemma ItIsInTheScope()
    ensures RenderedPair([TheRendering()], WORKLOAD, SCOPE)
  {
    assert [TheRendering()][0].scopes[0].key == SCOPE;
  }

  /** And the pair is recorded. */
  lemma ItIsRecorded(net: Network)
    requires forall n :: net(n) == Works
    ensures var v := Reconciled(EnvWith(net), Unasked(Registered(2)));
            && v.app == Registered(2).app.(status := v.app.status)
            && StatusPair(v.app.status, WORKLOAD, SCOPE) && !Leavable(v.server, SCOPE)
  {
    var w := Unasked(Registered(2));
    ItSyncs(net);
    ItRenders(net, w);
    ItAppliesUnasked(net);
    ItIsInTheScope();
    SuccessRecordsPair(EnvWith(net), w, [TheRendering()], WORKLOAD, SCOPE);
  }

  lemma UnaskedIsNew()
    ensures IsNew(Unasked(Start()), {WORKLOAD})
  {
    assert forall k :: Refs(Unasked(Start()).server, k) == [];
  }

  lemma LifeBegins(w: World, ours: set<Key>)
    requires IsNew(w, ours)
    ensures IsLife([w], [], ours)
  {
  }

  /** On a network that always works: registered, applied, recorded, deleted, and after any number of further
      reconciles still there. */
  lemma {:induction false} DeletionCanBeBlocked(net: Network, n: nat) returns (worlds: seq<World>, events: seq<Event>)
    requires forall n :: net(n) == Works
    ensures IsLife(worlds, events, {WORKLOAD}) && |events| == 3 + n
    ensures forall t :: 3 <= t < |events| ==> events[t] == Round(EnvWith(net))
    ensures var last := worlds[|worlds| - 1]; last.app.spec == SPEC && Blocks(last, WORKLOAD, SCOPE)
  {
    var env := EnvWith(net);
    if n == 0 {
      worlds, events := BlockedLife(net);
    } else {
      worlds, events := DeletionCanBeBlocked(net, n - 1);
      var last := worlds[|worlds| - 1];
      OursAlways(net, last);
      RoundStaysBlocked(env, last, WORKLOAD, SCOPE);
      LivesOn(worlds, events, {WORKLOAD}, Round(env), Reconciled(env, last));
      worlds, events := worlds + [Reconciled(env, last)], events + [Round(env)];
    }
  }

  lemma BlockedLife(net: Network) returns (worlds: seq<World>, events: seq<Event>)
    requires forall n :: net(n) == Works
    ensures IsLife(worlds, events, {WORKLOAD}) && |events| == 3
    ensures var last := worlds[|worlds| - 1]; last.app.spec == SPEC && Blocks(last, WORKLOAD, SCOPE)
  {
    var env, a, b := EnvWith(net), Unasked(Start()), Unasked(Registered(2));
    var c := Reconciled(env, b);
    var d := c.(app := Deleting(c.app));
    FirstIsRegistered(net);
    ItIsRecorded(net);
    OursAlways(net, a);
    OursAlways(net, b);
    UnaskedIsNew();
    LifeBegins(a, {WORKLOAD});
    LivesOn([a], [], {WORKLOAD}, Round(env), b);
    LivesOn([a] + [b], [] + [Round(env)], {WORKLOAD}, Round(env), c);
    LivesOn([a] + [b] + [c], [] + [Round(env)] + [Round(env)], {WORKLOAD}, Delete, d);
    worlds, events := [a] + [b] + [c] + [d], [] + [Round(env)] + [Round(env)] + [Delete];
  }
}
