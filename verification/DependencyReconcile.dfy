/** Reconciles as dependency rounds: what the gate holds back and what Apply is handed are the same objects, and a
    life of reconciles is a run of rounds. */
module DependencyReconcile {
  import opened Wrappers
  import opened Kube
  import opened Headers
  import opened Cluster
  import opened AppStatus
  import opened Apply
  import opened ApplyOnce
  import opened Rendering
  import opened Reconcile
  import opened RenderedFacts
  import opened GarbageCollection
  import opened Lifecycle
  import opened Gating
  import ApplyOnceRuns
  import Dependencies
  import DependencyRounds
  import ScopeMembership
  import ScopeRetries
  import Sets
  import FieldPaths

  // ---------- which objects are handed over ----------

  predicate HandsTrait(ts: seq<RenderedTrait>, k: Key) {
    exists j :: 0 <= j < |ts| && !ts[j].hasDep && ts[j].manifest.key == k
  }

  predicate HandsIn(w: Rendered, k: Key) {
    (!w.hasDep && w.manifest.key == k) || HandsTrait(w.traits, k)
  }

  /** Some object that goes by k is not held back. */
  predicate Hands(ws: seq<Rendered>, k: Key) {
    exists i :: 0 <= i < |ws| && HandsIn(ws[i], k)
  }

  predicate HandedKey(hs: seq<Handed>, k: Key) {
    exists n :: 0 <= n < |hs| && hs[n].manifest.key == k
  }

  lemma {:induction false} HandedKeySplit(a: seq<Handed>, b: seq<Handed>, k: Key)
    ensures HandedKey(a + b, k) <==> HandedKey(a, k) || HandedKey(b, k)
  {
    if n :| 0 <= n < |a| && a[n].manifest.key == k { assert (a + b)[n] == a[n]; }
    if n :| 0 <= n < |b| && b[n].manifest.key == k { assert (a + b)[|a| + n] == b[n]; }
  }

  lemma {:induction false} HandedTraitKeys(ts: seq<RenderedTrait>, k: Key)
    ensures HandedKey(HandedTraits(ts), k) <==> HandsTrait(ts, k)
  {
    if ts != [] {
      var own := if ts[0].hasDep then [] else [Handed(ts[0].manifest, false)];
      HandedTraitKeys(ts[1..], k);
      HandedKeySplit(own, HandedTraits(ts[1..]), k);
      assert HandsTrait(ts, k) <==> (!ts[0].hasDep && ts[0].manifest.key == k) || HandsTrait(ts[1..], k) by {
        if j :| 0 < j < |ts| && !ts[j].hasDep && ts[j].manifest.key == k { assert ts[1..][j - 1] == ts[j]; }
        if j :| 0 <= j < |ts[1..]| && !ts[1..][j].hasDep && ts[1..][j].manifest.key == k { assert ts[j + 1] == ts[1..][j]; }
      }
    }
  }

  lemma {:induction false} HandsFirstOrRest(ws: seq<Rendered>, k: Key)
    requires ws != []
    ensures Hands(ws, k) <==> HandsIn(ws[0], k) || Hands(ws[1..], k)
  {
    if i :| 0 < i < |ws| && HandsIn(ws[i], k) { assert ws[1..][i - 1] == ws[i]; }
    if i :| 0 <= i < |ws[1..]| && HandsIn(ws[1..][i], k) { assert ws[i + 1] == ws[1..][i]; }
  }

  lemma {:induction false} HandedOverKeys(ws: seq<Rendered>, k: Key)
    ensures HandedKey(HandedOver(ws), k) <==> Hands(ws, k)
  {
    if ws != [] {
      var own := if ws[0].hasDep then [] else [Handed(ws[0].manifest, true)];
      HandedTraitKeys(ws[0].traits, k);
      HandedOverKeys(ws[1..], k);
      HandedKeySplit(own, HandedTraits(ws[0].traits), k);
      HandedKeySplit(own + HandedTraits(ws[0].traits), HandedOver(ws[1..]), k);
      HandsFirstOrRest(ws, k);
    }
  }

  // ---------- which objects exist after an Apply ----------

  /** Nothing is lost, and what is not handed over stays as it was. */
  ghost predicate Grows(s: Server, t: Server, handed: Key -> bool) {
    && (forall k :: k in s.objects ==> k in t.objects)
    && (forall k :: !handed(k) ==> Find(t.objects, k) == Find(s.objects, k))
  }

  lemma {:induction false} GrowsTwice(s: Server, t: Server, u: Server, a: Key -> bool, b: Key -> bool, c: Key -> bool)
    requires Grows(s, t, a) && Grows(t, u, b) && forall k :: a(k) || b(k) ==> c(k)
    ensures Grows(s, u, c)
  {
  }

  lemma {:induction false} TraitsGrow(c: Config, ts: seq<RenderedTrait>, s: Server)
    ensures Grows(s, ApplyTraits(c, ts, s).server, k => HandsTrait(ts, k))
    decreases |ts|
  {
    if ts != [] {
      var p := if ts[0].hasDep then Progress(s, Done) else ApplyObject(c, ts[0].manifest, false, s);
      var first: Key -> bool := k => !ts[0].hasDep && ts[0].manifest.key == k;
      var rest: Key -> bool := k => HandsTrait(ts[1..], k);
      var all: Key -> bool := k => HandsTrait(ts, k);
      assert Grows(s, p.server, first);
      forall k ensures first(k) || rest(k) ==> all(k) {
        if j :| 0 <= j < |ts[1..]| && !ts[1..][j].hasDep && ts[1..][j].manifest.key == k { assert ts[j + 1] == ts[1..][j]; }
      }
      if p.result == Done {
        TraitsGrow(c, ts[1..], p.server);
        GrowsTwice(s, p.server, ApplyTraits(c, ts[1..], p.server).server, first, rest, all);
      }
    }
  }

  lemma {:induction false} WorkloadGrows(c: Config, w: Rendered, s: Server)
    ensures Grows(s, ApplyWorkload(c, w, s).server, k => HandsIn(w, k))
  {
    var own: Key -> bool := k => !w.hasDep && w.manifest.key == k;
    var traits: Key -> bool := k => HandsTrait(w.traits, k);
    var p := if w.hasDep then Progress(s, Done) else ApplyObject(c, w.manifest, true, s);
    assert Grows(s, p.server, own);
    if p.result == Done {
      var q := ApplyTraits(c, w.traits, p.server);
      TraitsGrow(c, w.traits, p.server);
      ScopesLeaveObjects(c, w.manifest.key, w.scopes, q.server);
      GrowsTwice(s, p.server, q.server, own, traits, k => HandsIn(w, k));
    }
  }

  lemma {:induction false} WorkloadsGrow(c: Config, ws: seq<Rendered>, s: Server)
    ensures Grows(s, ApplyWorkloads(c, ws, s).server, k => Hands(ws, k))
    decreases |ws|
  {
    if ws != [] {
      var p := ApplyWorkload(c, ws[0], s);
      WorkloadGrows(c, ws[0], s);
      forall k ensures HandsIn(ws[0], k) || Hands(ws[1..], k) ==> Hands(ws, k) { HandsFirstOrRest(ws, k); }
      if p.result == Done {
        WorkloadsGrow(c, ws[1..], p.server);
        GrowsTwice(s, p.server, ApplyWorkloads(c, ws[1..], p.server).server,
                   k => HandsIn(ws[0], k), k => Hands(ws[1..], k), k => Hands(ws, k));
      }
    }
  }

  /** However it ends, an Apply deletes nothing, and creates and changes only what is not held back. */
  lemma {:induction false} ApplyGrows(c: Config, status: seq<WorkloadStatus>, ws: seq<Rendered>, s: Server)
    ensures Grows(s, Applied(c, status, ws, s).server, k => Hands(ws, k))
  {
    WorkloadsGrow(c, ws, s);
    DereferenceLeavesObjects(c, status, ws, ApplyWorkloads(c, ws, s).server);
  }

  lemma {:induction false} UnhandedIsUntouched(c: Config, status: seq<WorkloadStatus>, ws: seq<Rendered>, s: Server, k: Key)
    requires !Hands(ws, k)
    ensures Find(Applied(c, status, ws, s).server.objects, k) == Find(s.objects, k)
  {
    ApplyGrows(c, status, ws, s);
    var handed: Key -> bool := k => Hands(ws, k);
    assert !handed(k);
  }

  lemma {:induction false} PutAllHas(once: bool, hs: seq<Handed>, objects: Objects, k: Key)
    requires k in objects || HandedKey(hs, k)
    ensures k in PutAll(once, hs, objects)
    decreases |hs|
  {
    if hs != [] {
      if n :| 0 < n < |hs| && hs[n].manifest.key == k { assert hs[1..][n - 1] == hs[n]; }
      PutAllHas(once, hs[1..], Put(once, hs[0], objects), k);
    }
  }

  /** After an Apply that succeeds everything that is not held back exists. */
  lemma {:induction false} ApplyCreates(c: Config, status: seq<WorkloadStatus>, ws: seq<Rendered>, s: Server, k: Key)
    requires Applied(c, status, ws, s).result == Done && Hands(ws, k)
    ensures k in Applied(c, status, ws, s).server.objects
  {
    WorkloadsArePut(c, ws, s);
    DereferenceLeavesObjects(c, status, ws, ApplyWorkloads(c, ws, s).server);
    HandedOverKeys(ws, k);
    PutAllHas(c.once, HandedOver(ws), s.objects, k);
  }

  // ---------- the gate hands over what Apply is handed ----------

  lemma {:induction false} PositionOf(ws: seq<Rendered>, m: nat, n: nat) returns (i: nat, j: nat)
    requires m <= |ws| && n < Offset(ws, m)
    ensures i < m && (j == 0 || j - 1 < |ws[i].traits|) && n == Offset(ws, i) + j
    decreases m
  {
    if n < Offset(ws, m - 1) {
      i, j := PositionOf(ws, m - 1, n);
    } else {
      i, j := m - 1, n - Offset(ws, m - 1);
    }
  }

  lemma {:induction false} InSlice<T>(s: seq<T>, o: nat, n: nat, j: nat)
    requires o + n <= |s| && j < n
    ensures s[o..o + n][j] == s[o + j]
  {
  }

  /** The gate's object at the position of a workload, read back. */
  lemma {:induction false} RegainedWorkload(ws: seq<Rendered>, gs: seq<Dependencies.Gated>, i: nat)
    requires |gs| == Offset(ws, |ws|) && i < |ws|
    ensures var v, o := RegainedAll(ws, gs)[i], Offset(ws, i);
            && o < |gs| && |v.traits| == |ws[i].traits|
            && v.manifest.key == KeyOf(gs[o].content) && v.hasDep == gs[o].hasDep
  {
    RegainedAt(ws, gs, i);
    InSlice(gs, Offset(ws, i), 1 + |ws[i].traits|, 0);
  }

  lemma {:induction false} RegainedTrait(ws: seq<Rendered>, gs: seq<Dependencies.Gated>, i: nat, j: nat)
    requires |gs| == Offset(ws, |ws|) && i < |ws| && j < |ws[i].traits|
    ensures var v, o := RegainedAll(ws, gs)[i], Offset(ws, i) + (1 + j);
            && o < |gs| && |v.traits| == |ws[i].traits|
            && v.traits[j].manifest.key == KeyOf(gs[o].content) && v.traits[j].hasDep == gs[o].hasDep
  {
    RegainedAt(ws, gs, i);
    InSlice(gs, Offset(ws, i), 1 + |ws[i].traits|, 1 + j);
  }

  predicate HandsGated(gs: seq<Dependencies.Gated>, k: Key) {
    exists n :: 0 <= n < |gs| && !gs[n].hasDep && KeyOf(gs[n].content) == k
  }

  lemma {:induction false} HandedIsGated(ws: seq<Rendered>, gs: seq<Dependencies.Gated>, k: Key, i: nat)
    requires |gs| == Offset(ws, |ws|) && i < |ws| && HandsIn(RegainedAll(ws, gs)[i], k)
    ensures HandsGated(gs, k)
  {
    var v, o := RegainedAll(ws, gs)[i], Offset(ws, i);
    RegainedWorkload(ws, gs, i);
    if HandsTrait(v.traits, k) {
      var j :| 0 <= j < |v.traits| && !v.traits[j].hasDep && v.traits[j].manifest.key == k;
      RegainedTrait(ws, gs, i, j);
    }
  }

  lemma {:induction false} GatedIsHanded(ws: seq<Rendered>, gs: seq<Dependencies.Gated>, n: nat)
    requires |gs| == Offset(ws, |ws|) && n < |gs| && !gs[n].hasDep
    ensures Hands(RegainedAll(ws, gs), KeyOf(gs[n].content))
  {
    var vs := RegainedAll(ws, gs);
    var i, j := PositionOf(ws, |ws|, n);
    RegainedWorkload(ws, gs, i);
    if j > 0 {
      RegainedTrait(ws, gs, i, j - 1);
      assert HandsTrait(vs[i].traits, KeyOf(gs[n].content));
    }
    assert HandsIn(vs[i], KeyOf(gs[n].content));
  }

  /** What the gate does not hold back is exactly what is handed over. */
  lemma {:induction false} GateHands(ws: seq<Rendered>, gs: seq<Dependencies.Gated>, k: Key)
    requires |gs| == Offset(ws, |ws|)
    ensures Hands(RegainedAll(ws, gs), k) <==> HandsGated(gs, k)
  {
    if Hands(RegainedAll(ws, gs), k) {
      var i :| 0 <= i < |ws| && HandsIn(RegainedAll(ws, gs)[i], k);
      HandedIsGated(ws, gs, k, i);
    }
    if HandsGated(gs, k) {
      var n :| 0 <= n < |gs| && !gs[n].hasDep && KeyOf(gs[n].content) == k;
      GatedIsHanded(ws, gs, n);
    }
  }

  /** Nothing unsatisfied means that everything is handed over, and an Apply that succeeds leaves everything in place. */
  lemma {:induction false} NothingUnsatisfiedAppliesAll(env: Env, app: App, s: Server, status: seq<WorkloadStatus>, k: Key)
    requires RenderFor(env, app, s).Some? && Renders(RenderFor(env, app, s).value, k)
    requires Unsatisfied(env, app, s) == []
    requires Applied(ConfigFor(env, app), status, RenderFor(env, app, s).value, s).result == Done
    ensures k in Applied(ConfigFor(env, app), status, RenderFor(env, app, s).value, s).server.objects
  {
    var drawn := DrawnOf(env, app, s);
    var r := Dependencies.Render(GraphOf(app.spec.components, drawn), SnapshotOf(s, env.unreadable), env.tree).value;
    Dependencies.NothingUnsatisfiedHoldsNothing(GraphOf(app.spec.components, drawn), SnapshotOf(s, env.unreadable), env.tree);
    NodesOfGraph(app.spec.components, drawn);
    NoneHeldHandsAll(drawn, r.objects, k);
    ApplyCreates(ConfigFor(env, app), status, RenderFor(env, app, s).value, s, k);
  }

  /** What a round draws, before dependencies are handled, and the dependencies it reports. */
  function DrawnOf(env: Env, app: App, s: Server): (drawn: seq<Rendered>)
    requires RenderFor(env, app, s).Some?
    ensures Aligned(app.spec.components, drawn)
    ensures RenderAll(env.cat, app.spec, app.status, s, app.spec.components) == Some(drawn)
  {
    RenderAll(env.cat, app.spec, app.status, s, app.spec.components).value
  }

  function Unsatisfied(env: Env, app: App, s: Server): seq<Dependencies.Unsatisfied>
    requires RenderFor(env, app, s).Some?
  {
    Dependencies.Render(GraphOf(app.spec.components, DrawnOf(env, app, s)), SnapshotOf(s, env.unreadable), env.tree).value.unsatisfied
  }

  lemma {:induction false} NoneHeldHandsAll(ws: seq<Rendered>, gs: seq<Dependencies.Gated>, k: Key)
    requires |gs| == Offset(ws, |ws|) && forall n :: 0 <= n < |gs| ==> !gs[n].hasDep
    requires Renders(RegainedAll(ws, gs), k)
    ensures Hands(RegainedAll(ws, gs), k)
  {
    var vs := RegainedAll(ws, gs);
    var i :| 0 <= i < |vs| && (vs[i].manifest.key == k || RendersTrait(vs[i].traits, k));
    RegainedWorkload(ws, gs, i);
    if RendersTrait(vs[i].traits, k) {
      var j :| 0 <= j < |vs[i].traits| && vs[i].traits[j].manifest.key == k;
      RegainedTrait(ws, gs, i, j);
      assert HandsTrait(vs[i].traits, k);
    }
    assert HandsIn(vs[i], k);
  }

  // ---------- a reconcile is a round ----------

  /** If the round draws anything, it draws this graph: the same keys, inputs and outputs. */
  ghost predicate DrawsGraph(env: Env, w: World, graph: seq<Dependencies.Component>) {
    var es := w.app.spec.components;
    var drawn := RenderAll(env.cat, w.app.spec, w.app.status, Tick(w.server), es);
    drawn.Some? ==> DependencyRounds.SameGraph(graph, GraphOf(es, drawn.value))
  }

  /** The round completes: neither rendering nor applying returns an error. */
  predicate CompletesIn(env: Env, w: World) {
    && Syncing(env, w) && RenderFor(env, w.app, Tick(w.server)).Some?
    && Applied(ConfigFor(env, w.app), w.app.status, RenderFor(env, w.app, Tick(w.server)).value, Tick(w.server)).result == Done
  }

  lemma {:induction false} NotSyncingLeavesObjects(env: Env, w: World)
    requires !Syncing(env, w) || RenderFor(env, w.app, Tick(w.server)).None?
    ensures Reconciled(env, w).server.objects == w.server.objects
  {
    if w.app.deleting { ApplyOnceRuns.DeletionLeavesObjects(env, w); }
  }

  lemma {:induction false} ReconciledObjects(env: Env, w: World, ws: seq<Rendered>)
    requires Syncing(env, w) && RenderFor(env, w.app, Tick(w.server)) == Some(ws)
    ensures Reconciled(env, w).server.objects == Synced(env, w.app, Tick(w.server), ws).server.objects
  {
  }

  /** What a round does to the objects it renders: what Apply does. */
  lemma {:induction false} SyncObjects(env: Env, w: World, ws: seq<Rendered>, k: Key)
    requires Bare(w.app.status) && Syncing(env, w) && RenderFor(env, w.app, Tick(w.server)) == Some(ws)
    ensures var p := Applied(ConfigFor(env, w.app), w.app.status, ws, Tick(w.server));
            var v := Reconciled(env, w);
            && (k in v.server.objects ==> k in p.server.objects && v.server.objects[k] == p.server.objects[k])
            && (Renders(ws, k) ==> Find(v.server.objects, k) == Find(p.server.objects, k))
  {
    var s := Tick(w.server);
    var p := Applied(ConfigFor(env, w.app), w.app.status, ws, s);
    ReconciledObjects(env, w, ws);
    CollectEffect(env.net, Eligible(w.app.status, RenderedRefs(ws)), p.server);
    if Renders(ws, k) { RenderedIsNeverCollected(env, w.app, s, ws, k); }
  }

  /** A node of the graph, after the gate, still goes by its key. */
  lemma {:induction false} GraphIsRendered(env: Env, w: World, graph: seq<Dependencies.Component>, k: Key)
    requires DrawsGraph(env, w, graph) && DependencyRounds.KeepsKeys(graph)
    requires RenderFor(env, w.app, Tick(w.server)).Some? && k in DependencyRounds.KeysOf(Dependencies.Nodes(graph))
    ensures Renders(RenderFor(env, w.app, Tick(w.server)).value, k)
  {
    var s, es := Tick(w.server), w.app.spec.components;
    var drawn := DrawnOf(env, w.app, s);
    var snap := SnapshotOf(s, env.unreadable);
    var objects := GatedObjects(es, drawn, snap, env.tree);
    var b :| 0 <= b < |Dependencies.Nodes(graph)| && KeyOf(Dependencies.Nodes(graph)[b].content) == k;
    DependencyRounds.DrawnIsGated(graph, GraphOf(es, drawn), env.tree, snap, b);
    PositionIsRendered(drawn, objects, b);
  }

  lemma {:induction false} PositionIsRendered(ws: seq<Rendered>, gs: seq<Dependencies.Gated>, n: nat)
    requires |gs| == Offset(ws, |ws|) && n < |gs|
    ensures Renders(RegainedAll(ws, gs), KeyOf(gs[n].content))
  {
    var vs := RegainedAll(ws, gs);
    var i, j := PositionOf(ws, |ws|, n);
    RegainedWorkload(ws, gs, i);
    if j > 0 {
      RegainedTrait(ws, gs, i, j - 1);
      assert RendersTrait(vs[i].traits, KeyOf(gs[n].content));
    }
  }

  /** What the gate of this round hands over. */
  lemma {:induction false} RoundHands(env: Env, w: World, k: Key)
    requires RenderFor(env, w.app, Tick(w.server)).Some?
    ensures var drawn := GraphOf(w.app.spec.components, DrawnOf(env, w.app, Tick(w.server)));
            var r := Dependencies.Render(drawn, SnapshotOf(w.server, env.unreadable), env.tree);
            && r.Some?
            && (k in DependencyRounds.HandedKeys(r.value) <==> Hands(RenderFor(env, w.app, Tick(w.server)).value, k))
  {
    var s, es := Tick(w.server), w.app.spec.components;
    var drawn := DrawnOf(env, w.app, s);
    assert SnapshotOf(s, env.unreadable) == SnapshotOf(w.server, env.unreadable);
    var objects := GatedObjects(es, drawn, SnapshotOf(s, env.unreadable), env.tree);
    GateHands(drawn, objects, k);
  }

  /** The graph a round draws; the given one when it draws nothing. */
  function DrawnGraph(env: Env, w: World, graph: seq<Dependencies.Component>): seq<Dependencies.Component> {
    if Syncing(env, w) && RenderFor(env, w.app, Tick(w.server)).Some? then
      GraphOf(w.app.spec.components, DrawnOf(env, w.app, Tick(w.server)))
    else graph
  }

  lemma {:induction false} SameGraphAsItself(graph: seq<Dependencies.Component>)
    ensures DependencyRounds.SameGraph(graph, graph)
  {
  }

  /** Nothing is lost: a round that does not complete. */
  lemma {:induction false} IdleKeeps(graph: seq<Dependencies.Component>, ac: FieldPaths.Value, before: Dependencies.Snapshot, after: Dependencies.Snapshot)
    requires DependencyRounds.Present(graph, before) <= DependencyRounds.Present(graph, after)
    ensures DependencyRounds.Keeps(graph, graph, ac, before, after, false)
  {
    SameGraphAsItself(graph);
  }

  /** Nothing is new: a round that hands over nothing that was not there. */
  lemma {:induction false} IdleGains(graph: seq<Dependencies.Component>, ac: FieldPaths.Value, before: Dependencies.Snapshot, after: Dependencies.Snapshot)
    requires DependencyRounds.Present(graph, after) <= DependencyRounds.Present(graph, before)
    ensures DependencyRounds.Gains(graph, graph, ac, before, after)
  {
    SameGraphAsItself(graph);
  }

  lemma {:induction false} BusyKeepsAt(env: Env, w: World, graph: seq<Dependencies.Component>, k: Key)
    requires Bare(w.app.status) && DrawsGraph(env, w, graph) && DependencyRounds.KeepsKeys(graph)
    requires Syncing(env, w) && RenderFor(env, w.app, Tick(w.server)).Some? && k in DependencyRounds.KeysOf(Dependencies.Nodes(graph))
    ensures var v, ws := Reconciled(env, w), RenderFor(env, w.app, Tick(w.server)).value;
            && (k in w.server.objects ==> k in v.server.objects)
            && (CompletesIn(env, w) && Hands(ws, k) ==> k in v.server.objects)
  {
    var ws := RenderFor(env, w.app, Tick(w.server)).value;
    GraphIsRendered(env, w, graph, k);
    SyncObjects(env, w, ws, k);
    ApplyGrows(ConfigFor(env, w.app), w.app.status, ws, Tick(w.server));
    if CompletesIn(env, w) && Hands(ws, k) {
      ApplyCreates(ConfigFor(env, w.app), w.app.status, ws, Tick(w.server), k);
    }
  }

  lemma {:induction false} UnhandedStays(env: Env, w: World, k: Key)
    requires Bare(w.app.status) && Syncing(env, w) && RenderFor(env, w.app, Tick(w.server)).Some?
    requires !Hands(RenderFor(env, w.app, Tick(w.server)).value, k) && k in Reconciled(env, w).server.objects
    ensures k in w.server.objects && Reconciled(env, w).server.objects[k] == w.server.objects[k]
  {
    var ws := RenderFor(env, w.app, Tick(w.server)).value;
    SyncObjects(env, w, ws, k);
    UnhandedIsUntouched(ConfigFor(env, w.app), w.app.status, ws, Tick(w.server), k);
  }

  lemma {:induction false} SnapshotKeys(s: Server, unreadable: set<Key>)
    ensures SnapshotOf(s, unreadable).objects.Keys == s.objects.Keys
  {
  }

  lemma {:induction false} BusyKeeps(env: Env, w: World, graph: seq<Dependencies.Component>, after: set<Key>)
    requires Bare(w.app.status) && DrawsGraph(env, w, graph) && DependencyRounds.KeepsKeys(graph)
    requires Syncing(env, w) && RenderFor(env, w.app, Tick(w.server)).Some?
    ensures DependencyRounds.Keeps(graph, DrawnGraph(env, w, graph), env.tree,
              SnapshotOf(w.server, env.unreadable), SnapshotOf(Reconciled(env, w).server, after), CompletesIn(env, w))
  {
    var v, drawn := Reconciled(env, w), DrawnGraph(env, w, graph);
    var before, next := SnapshotOf(w.server, env.unreadable), SnapshotOf(v.server, after);
    SnapshotKeys(w.server, env.unreadable);
    SnapshotKeys(v.server, after);
    RoundHands(env, w, Key("", "", ""));
    var r := Dependencies.Render(drawn, before, env.tree).value;
    forall k | k in DependencyRounds.KeysOf(Dependencies.Nodes(graph))
      ensures k in before.objects ==> k in next.objects
      ensures CompletesIn(env, w) && k in DependencyRounds.HandedKeys(r) ==> k in next.objects
    {
      BusyKeepsAt(env, w, graph, k);
      RoundHands(env, w, k);
    }
  }

  lemma {:induction false} BusyGains(env: Env, w: World, graph: seq<Dependencies.Component>, after: set<Key>)
    requires Bare(w.app.status) && DrawsGraph(env, w, graph)
    requires Syncing(env, w) && RenderFor(env, w.app, Tick(w.server)).Some?
    ensures DependencyRounds.Gains(graph, DrawnGraph(env, w, graph), env.tree,
              SnapshotOf(w.server, env.unreadable), SnapshotOf(Reconciled(env, w).server, after))
  {
    var v, drawn := Reconciled(env, w), DrawnGraph(env, w, graph);
    var before, next := SnapshotOf(w.server, env.unreadable), SnapshotOf(v.server, after);
    SnapshotKeys(w.server, env.unreadable);
    SnapshotKeys(v.server, after);
    RoundHands(env, w, Key("", "", ""));
    var r := Dependencies.Render(drawn, before, env.tree).value;
    forall k | k in next.objects && k !in before.objects ensures k in DependencyRounds.HandedKeys(r) {
      RoundHands(env, w, k);
      if !Hands(RenderFor(env, w.app, Tick(w.server)).value, k) { UnhandedStays(env, w, k); }
    }
  }

  /** Every reconcile is a dependency round over the graph it draws, whatever fails in it: it creates only what the gate
      hands over, and if no input is declared to fill a type or a name, it loses nothing; the round completes exactly
      when neither rendering nor applying returns an error. */
  lemma {:induction false} ReconcileIsARound(env: Env, w: World, graph: seq<Dependencies.Component>, after: set<Key>)
    requires Bare(w.app.status) && DrawsGraph(env, w, graph)
    ensures DependencyRounds.Gains(graph, DrawnGraph(env, w, graph), env.tree,
              SnapshotOf(w.server, env.unreadable), SnapshotOf(Reconciled(env, w).server, after))
    ensures DependencyRounds.KeepsKeys(graph) ==>
              DependencyRounds.Keeps(graph, DrawnGraph(env, w, graph), env.tree,
                SnapshotOf(w.server, env.unreadable), SnapshotOf(Reconciled(env, w).server, after), CompletesIn(env, w))
  {
    if Syncing(env, w) && RenderFor(env, w.app, Tick(w.server)).Some? {
      BusyGains(env, w, graph, after);
      if DependencyRounds.KeepsKeys(graph) { BusyKeeps(env, w, graph, after); }
    } else {
      NotSyncingLeavesObjects(env, w);
      SnapshotKeys(w.server, env.unreadable);
      SnapshotKeys(Reconciled(env, w).server, after);
      IdleGains(graph, env.tree, SnapshotOf(w.server, env.unreadable), SnapshotOf(Reconciled(env, w).server, after));
      IdleKeeps(graph, env.tree, SnapshotOf(w.server, env.unreadable), SnapshotOf(Reconciled(env, w).server, after));
    }
  }

  // ---------- a life is a run ----------

  /** If the step is a round that draws anything, it draws the graph. */
  ghost predicate GraphStepAt(worlds: seq<World>, events: seq<Event>, t: nat, graph: seq<Dependencies.Component>)
    requires |worlds| == |events| + 1
  {
    t < |events| && (events[t].Round? ==> DrawsGraph(events[t].env, worlds[t], graph))
  }

  ghost predicate GraphBetween(worlds: seq<World>, events: seq<Event>, a: nat, b: nat, graph: seq<Dependencies.Component>)
    requires |worlds| == |events| + 1
  {
    b <= |events| && forall t: nat {:trigger GraphStepAt(worlds, events, t, graph)} :: a <= t < b ==> GraphStepAt(worlds, events, t, graph)
  }

  /** Others delete none of the graph's objects. */
  ghost predicate Spares(w: World, v: World, e: Event, graph: seq<Dependencies.Component>) {
    e.Others? ==> forall k :: k in DependencyRounds.KeysOf(Dependencies.Nodes(graph)) && k in w.server.objects ==> k in v.server.objects
  }

  ghost predicate SparesAt(worlds: seq<World>, events: seq<Event>, t: nat, graph: seq<Dependencies.Component>)
    requires |worlds| == |events| + 1
  {
    t < |events| && Spares(worlds[t], worlds[t + 1], events[t], graph)
  }

  ghost predicate SparedBetween(worlds: seq<World>, events: seq<Event>, a: nat, b: nat, graph: seq<Dependencies.Component>)
    requires |worlds| == |events| + 1
  {
    b <= |events| && forall t: nat {:trigger SparesAt(worlds, events, t, graph)} :: a <= t < b ==> SparesAt(worlds, events, t, graph)
  }

  /** Others create none of them. */
  ghost predicate MakesNone(w: World, v: World, e: Event, graph: seq<Dependencies.Component>) {
    e.Others? ==> forall k :: k in DependencyRounds.KeysOf(Dependencies.Nodes(graph)) && k in v.server.objects ==> k in w.server.objects
  }

  ghost predicate MakesNoneAt(worlds: seq<World>, events: seq<Event>, t: nat, graph: seq<Dependencies.Component>)
    requires |worlds| == |events| + 1
  {
    t < |events| && MakesNone(worlds[t], worlds[t + 1], events[t], graph)
  }

  ghost predicate NoneMadeBetween(worlds: seq<World>, events: seq<Event>, a: nat, b: nat, graph: seq<Dependencies.Component>)
    requires |worlds| == |events| + 1
  {
    b <= |events| && forall t: nat {:trigger MakesNoneAt(worlds, events, t, graph)} :: a <= t < b ==> MakesNoneAt(worlds, events, t, graph)
  }

  function UnreadableIn(e: Event): set<Key> {
    if e.Round? then e.env.unreadable else {}
  }

  /** The cluster at a step, as the round of that step, if it is one, reads it. */
  function SnapshotAt(worlds: seq<World>, events: seq<Event>, t: nat): Dependencies.Snapshot
    requires |worlds| == |events| + 1 && t < |worlds|
  {
    SnapshotOf(worlds[t].server, if t < |events| then UnreadableIn(events[t]) else {})
  }

  predicate CompletesAt(worlds: seq<World>, events: seq<Event>, t: nat)
    requires |worlds| == |events| + 1 && t < |events|
  {
    events[t].Round? && CompletesIn(events[t].env, worlds[t])
  }

  function TreeAt(events: seq<Event>, t: nat): FieldPaths.Value
    requires t < |events|
  {
    if events[t].Round? then events[t].env.tree else FieldPaths.Null
  }

  function DrawnAt(worlds: seq<World>, events: seq<Event>, t: nat, graph: seq<Dependencies.Component>): seq<Dependencies.Component>
    requires |worlds| == |events| + 1 && t < |events|
  {
    if events[t].Round? then DrawnGraph(events[t].env, worlds[t], graph) else graph
  }

  /** The steps from a to b as a run of rounds; a step that is no reconcile is a round that does not complete. */
  function RunOf(worlds: seq<World>, events: seq<Event>, a: nat, b: nat, graph: seq<Dependencies.Component>): (run: DependencyRounds.Run)
    requires |worlds| == |events| + 1 && a <= b <= |events|
    ensures DependencyRounds.Fits(run) && |run.completed| == b - a
  {
    DependencyRounds.Run(
      seq(b - a + 1, i requires 0 <= i <= b - a => SnapshotAt(worlds, events, a + i)),
      seq(b - a, i requires 0 <= i < b - a => DrawnAt(worlds, events, a + i, graph)),
      seq(b - a, i requires 0 <= i < b - a => TreeAt(events, a + i)),
      CompletionsBetween(worlds, events, a, b))
  }

  /** Which steps are rounds that complete. */
  function CompletionsBetween(worlds: seq<World>, events: seq<Event>, a: nat, b: nat): (flags: seq<bool>)
    requires |worlds| == |events| + 1 && a <= b <= |events|
    ensures |flags| == b - a
  {
    seq(b - a, i requires 0 <= i < b - a => CompletesAt(worlds, events, a + i))
  }

  lemma {:induction false} RunAt(worlds: seq<World>, events: seq<Event>, a: nat, b: nat, graph: seq<Dependencies.Component>, t: nat)
    requires |worlds| == |events| + 1 && a <= t <= b <= |events|
    ensures RunOf(worlds, events, a, b, graph).snaps[t - a] == SnapshotAt(worlds, events, t)
  {
    assert a + (t - a) == t;
  }

  lemma {:induction false} RunStepAt(worlds: seq<World>, events: seq<Event>, a: nat, b: nat, graph: seq<Dependencies.Component>, t: nat)
    requires |worlds| == |events| + 1 && a <= t < b <= |events|
    ensures var run := RunOf(worlds, events, a, b, graph);
            && run.drawn[t - a] == DrawnAt(worlds, events, t, graph) && run.acs[t - a] == TreeAt(events, t)
            && run.completed[t - a] == CompletesAt(worlds, events, t)
  {
    assert a + (t - a) == t;
  }

  lemma {:induction false} StepGains(worlds: seq<World>, events: seq<Event>, ours: set<Key>, graph: seq<Dependencies.Component>, t: nat)
    requires IsLife(worlds, events, ours) && GraphStepAt(worlds, events, t, graph) && MakesNoneAt(worlds, events, t, graph)
    ensures DependencyRounds.Gains(graph, DrawnAt(worlds, events, t, graph), TreeAt(events, t),
              SnapshotAt(worlds, events, t), SnapshotAt(worlds, events, t + 1))
  {
    LifeKeepsInv(worlds, events, ours, t);
    assert StepAt(worlds, events, ours, t);
    var after := if t + 1 < |events| then UnreadableIn(events[t + 1]) else {};
    if events[t].Round? {
      ReconcileIsARound(events[t].env, worlds[t], graph, after);
    } else {
      SnapshotKeys(worlds[t].server, UnreadableIn(events[t]));
      SnapshotKeys(worlds[t + 1].server, after);
      IdleGains(graph, TreeAt(events, t), SnapshotAt(worlds, events, t), SnapshotAt(worlds, events, t + 1));
    }
  }

  lemma {:induction false} StepKeeps(worlds: seq<World>, events: seq<Event>, ours: set<Key>, graph: seq<Dependencies.Component>, t: nat)
    requires IsLife(worlds, events, ours) && GraphStepAt(worlds, events, t, graph) && SparesAt(worlds, events, t, graph)
    requires DependencyRounds.KeepsKeys(graph)
    ensures DependencyRounds.Keeps(graph, DrawnAt(worlds, events, t, graph), TreeAt(events, t),
              SnapshotAt(worlds, events, t), SnapshotAt(worlds, events, t + 1), CompletesAt(worlds, events, t))
  {
    LifeKeepsInv(worlds, events, ours, t);
    assert StepAt(worlds, events, ours, t);
    var after := if t + 1 < |events| then UnreadableIn(events[t + 1]) else {};
    if events[t].Round? {
      ReconcileIsARound(events[t].env, worlds[t], graph, after);
    } else {
      SnapshotKeys(worlds[t].server, UnreadableIn(events[t]));
      SnapshotKeys(worlds[t + 1].server, after);
      IdleKeeps(graph, TreeAt(events, t), SnapshotAt(worlds, events, t), SnapshotAt(worlds, events, t + 1));
    }
  }

  /** Step t of a life is step t - a of the run. */
  predicate RunHas(run: DependencyRounds.Run, n: nat, drawn: seq<Dependencies.Component>, ac: FieldPaths.Value,
                   before: Dependencies.Snapshot, after: Dependencies.Snapshot, completed: bool) {
    && DependencyRounds.Fits(run) && n < |run.completed| && run.snaps[n] == before && run.snaps[n + 1] == after
    && run.drawn[n] == drawn && run.acs[n] == ac && run.completed[n] == completed
  }

  lemma {:induction false} RunHasStep(worlds: seq<World>, events: seq<Event>, a: nat, b: nat, graph: seq<Dependencies.Component>, t: nat)
    requires |worlds| == |events| + 1 && a <= t < b <= |events|
    ensures RunHas(RunOf(worlds, events, a, b, graph), t - a, DrawnAt(worlds, events, t, graph), TreeAt(events, t),
                   SnapshotAt(worlds, events, t), SnapshotAt(worlds, events, t + 1), CompletesAt(worlds, events, t))
  {
    RunAt(worlds, events, a, b, graph, t);
    RunAt(worlds, events, a, b, graph, t + 1);
    RunStepAt(worlds, events, a, b, graph, t);
  }

  lemma {:induction false} KeepsOfRun(graph: seq<Dependencies.Component>, run: DependencyRounds.Run, n: nat,
    drawn: seq<Dependencies.Component>, ac: FieldPaths.Value, before: Dependencies.Snapshot, after: Dependencies.Snapshot, completed: bool)
    requires RunHas(run, n, drawn, ac, before, after, completed) && DependencyRounds.Keeps(graph, drawn, ac, before, after, completed)
    ensures DependencyRounds.KeepsAt(graph, run, n)
  {
  }

  lemma {:induction false} GainsOfRun(graph: seq<Dependencies.Component>, run: DependencyRounds.Run, n: nat,
    drawn: seq<Dependencies.Component>, ac: FieldPaths.Value, before: Dependencies.Snapshot, after: Dependencies.Snapshot, completed: bool)
    requires RunHas(run, n, drawn, ac, before, after, completed) && DependencyRounds.Gains(graph, drawn, ac, before, after)
    ensures DependencyRounds.GainsAt(graph, run, n)
  {
  }

  lemma {:induction false} KeepsInRun(worlds: seq<World>, events: seq<Event>, ours: set<Key>, a: nat, b: nat, graph: seq<Dependencies.Component>, t: nat)
    requires IsLife(worlds, events, ours) && a <= t < b <= |events| && DependencyRounds.KeepsKeys(graph)
    requires GraphStepAt(worlds, events, t, graph) && SparesAt(worlds, events, t, graph)
    ensures DependencyRounds.KeepsAt(graph, RunOf(worlds, events, a, b, graph), t - a)
  {
    StepKeeps(worlds, events, ours, graph, t);
    RunHasStep(worlds, events, a, b, graph, t);
    KeepsOfRun(graph, RunOf(worlds, events, a, b, graph), t - a, DrawnAt(worlds, events, t, graph), TreeAt(events, t),
               SnapshotAt(worlds, events, t), SnapshotAt(worlds, events, t + 1), CompletesAt(worlds, events, t));
  }

  lemma {:induction false} GainsInRun(worlds: seq<World>, events: seq<Event>, ours: set<Key>, a: nat, b: nat, graph: seq<Dependencies.Component>, t: nat)
    requires IsLife(worlds, events, ours) && a <= t < b <= |events|
    requires GraphStepAt(worlds, events, t, graph) && MakesNoneAt(worlds, events, t, graph)
    ensures DependencyRounds.GainsAt(graph, RunOf(worlds, events, a, b, graph), t - a)
  {
    StepGains(worlds, events, ours, graph, t);
    RunHasStep(worlds, events, a, b, graph, t);
    GainsOfRun(graph, RunOf(worlds, events, a, b, graph), t - a, DrawnAt(worlds, events, t, graph), TreeAt(events, t),
               SnapshotAt(worlds, events, t), SnapshotAt(worlds, events, t + 1), CompletesAt(worlds, events, t));
  }

  /** A stretch of a life in which every round draws one graph, and others delete none of its objects, is a run that
      loses nothing. */
  lemma {:induction false} LifeSpares(worlds: seq<World>, events: seq<Event>, ours: set<Key>, a: nat, b: nat, graph: seq<Dependencies.Component>)
    requires IsLife(worlds, events, ours) && a <= b && GraphBetween(worlds, events, a, b, graph) && SparedBetween(worlds, events, a, b, graph)
    requires DependencyRounds.KeepsKeys(graph)
    ensures DependencyRounds.SparingRun(graph, RunOf(worlds, events, a, b, graph))
  {
    var run := RunOf(worlds, events, a, b, graph);
    forall n: nat ensures DependencyRounds.KeepsAt(graph, run, n) {
      if n < b - a {
        assert GraphStepAt(worlds, events, a + n, graph) && SparesAt(worlds, events, a + n, graph);
        KeepsInRun(worlds, events, ours, a, b, graph, a + n);
      }
    }
  }

  /** And one in which others create none of them is a run in which only rounds do. */
  lemma {:induction false} LifeIsOwn(worlds: seq<World>, events: seq<Event>, ours: set<Key>, a: nat, b: nat, graph: seq<Dependencies.Component>)
    requires IsLife(worlds, events, ours) && a <= b && GraphBetween(worlds, events, a, b, graph) && NoneMadeBetween(worlds, events, a, b, graph)
    ensures DependencyRounds.OwnRun(graph, RunOf(worlds, events, a, b, graph))
  {
    var run := RunOf(worlds, events, a, b, graph);
    forall n: nat ensures DependencyRounds.GainsAt(graph, run, n) {
      if n < b - a {
        assert GraphStepAt(worlds, events, a + n, graph) && MakesNoneAt(worlds, events, a + n, graph);
        GainsInRun(worlds, events, ours, a, b, graph, a + n);
      }
    }
  }

  /** How many rounds complete between a and b. */
  function CompletedBetween(worlds: seq<World>, events: seq<Event>, a: nat, b: nat): nat
    requires |worlds| == |events| + 1 && a <= b <= |events|
  {
    DependencyRounds.Completed(CompletionsBetween(worlds, events, a, b))
  }

  /** Before the round of step t, if it completes, every source whose object exists has been filled. */
  ghost predicate FilledAt(worlds: seq<World>, events: seq<Event>, t: nat, graph: seq<Dependencies.Component>)
    requires |worlds| == |events| + 1
  {
    t < |events| && CompletesAt(worlds, events, t) ==>
      DependencyRounds.SourcesFilled(graph, TreeAt(events, t), SnapshotAt(worlds, events, t))
  }

  /** Between a and b, others fill the sources. */
  ghost predicate FilledBetween(worlds: seq<World>, events: seq<Event>, a: nat, b: nat, graph: seq<Dependencies.Component>)
    requires |worlds| == |events| + 1
  {
    forall t: nat {:trigger FilledAt(worlds, events, t, graph)} :: a <= t < b ==> FilledAt(worlds, events, t, graph)
  }

  lemma {:induction false} StepIsAttended(worlds: seq<World>, events: seq<Event>, a: nat, b: nat, graph: seq<Dependencies.Component>, t: nat)
    requires |worlds| == |events| + 1 && a <= t < b <= |events| && FilledAt(worlds, events, t, graph)
    ensures DependencyRounds.AttendedAt(graph, RunOf(worlds, events, a, b, graph), t - a)
  {
    RunAt(worlds, events, a, b, graph, t);
    RunStepAt(worlds, events, a, b, graph, t);
  }

  lemma {:induction false} LifeIsAttended(worlds: seq<World>, events: seq<Event>, a: nat, b: nat, graph: seq<Dependencies.Component>)
    requires |worlds| == |events| + 1 && a <= b <= |events| && FilledBetween(worlds, events, a, b, graph)
    ensures DependencyRounds.Attended(graph, RunOf(worlds, events, a, b, graph))
  {
    var run := RunOf(worlds, events, a, b, graph);
    forall t: nat ensures DependencyRounds.AttendedAt(graph, run, t) {
      if t < b - a {
        assert FilledAt(worlds, events, a + t, graph);
        StepIsAttended(worlds, events, a, b, graph, a + t);
      }
    }
  }

  /** Reconciles converge: over an acyclic graph whose sources are filled, and whose objects nobody deletes, once as many
      rounds have completed as the graph has objects, every workload and trait exists, whatever failed in between. */
  lemma {:induction false} AcyclicLifeFinishes(worlds: seq<World>, events: seq<Event>, ours: set<Key>, a: nat, b: nat, graph: seq<Dependencies.Component>)
    requires IsLife(worlds, events, ours) && a <= b && GraphBetween(worlds, events, a, b, graph) && DependencyRounds.KeepsKeys(graph)
    requires SparedBetween(worlds, events, a, b, graph)
    requires FilledBetween(worlds, events, a, b, graph) && DependencyRounds.Acyclic(graph)
    requires CompletedBetween(worlds, events, a, b) >= |Dependencies.Nodes(graph)|
    ensures DependencyRounds.KeysOf(Dependencies.Nodes(graph)) <= worlds[b].server.objects.Keys
  {
    var run := RunOf(worlds, events, a, b, graph);
    LifeSpares(worlds, events, ours, a, b, graph);
    LifeIsAttended(worlds, events, a, b, graph);
    assert run.completed == CompletionsBetween(worlds, events, a, b);
    DependencyRounds.AcyclicApplicationsFinish(graph, run);
    RunAt(worlds, events, a, b, graph, b);
    SnapshotKeys(worlds[b].server, if b < |events| then UnreadableIn(events[b]) else {});
  }

  lemma {:induction false} AbsentHoweverRead(graph: seq<Dependencies.Component>, s: Server, u: set<Key>, v: set<Key>, stuck: set<nat>)
    requires DependencyRounds.AllAbsent(graph, SnapshotOf(s, u), stuck)
    ensures DependencyRounds.AllAbsent(graph, SnapshotOf(s, v), stuck)
  {
    SnapshotKeys(s, u);
    SnapshotKeys(s, v);
  }

  /** And cycles never start: objects on a cycle or downstream of one that do not exist at a, and that nobody else
      creates, do not exist at b. */
  lemma {:induction false} CyclicLifeNeverStarts(
    worlds: seq<World>, events: seq<Event>, ours: set<Key>, a: nat, b: nat, graph: seq<Dependencies.Component>,
    cycle: seq<nat>, tail: seq<nat>)
    requires IsLife(worlds, events, ours) && a <= b && GraphBetween(worlds, events, a, b, graph) && NoneMadeBetween(worlds, events, a, b, graph)
    requires DependencyRounds.IsCycle(graph, cycle) && DependencyRounds.IsChain(graph, tail) && tail[0] == cycle[0]
    requires DependencyRounds.OwnNames(graph, DependencyRounds.Members(cycle) + DependencyRounds.Members(tail))
    requires DependencyRounds.AllAbsent(graph, SnapshotOf(worlds[a].server, {}), DependencyRounds.Members(cycle) + DependencyRounds.Members(tail))
    ensures DependencyRounds.AllAbsent(graph, SnapshotOf(worlds[b].server, {}), DependencyRounds.Members(cycle) + DependencyRounds.Members(tail))
  {
    var run := RunOf(worlds, events, a, b, graph);
    LifeIsOwn(worlds, events, ours, a, b, graph);
    RunAt(worlds, events, a, b, graph, a);
    RunAt(worlds, events, a, b, graph, b);
    var stuck := DependencyRounds.Members(cycle) + DependencyRounds.Members(tail);
    AbsentHoweverRead(graph, worlds[a].server, {}, if a < |events| then UnreadableIn(events[a]) else {}, stuck);
    DependencyRounds.CyclesNeverStart(graph, run, b - a, cycle, tail);
    AbsentHoweverRead(graph, worlds[b].server, if b < |events| then UnreadableIn(events[b]) else {}, {}, stuck);
  }

  // ---------- how often a round does not complete ----------

  function AttemptOf(env: Env, w: World): ScopeRetries.Attempt
    requires RenderFor(env, w.app, Tick(w.server)).Some?
  {
    ScopeRetries.Attempt(ConfigFor(env, w.app), RenderFor(env, w.app, Tick(w.server)).value, Tick(w.server))
  }

  /** The round renders the same workloads into the same scopes as first; the network works, nobody else controls the
      objects, and the scopes can be joined and left. */
  ghost predicate WellFormedRound(env: Env, w: World, first: seq<Rendered>) {
    && Syncing(env, w) && RenderFor(env, w.app, Tick(w.server)).Some?
    && ScopeRetries.WellFormed(AttemptOf(env, w), w.app.status)
    && ScopeRetries.SamePairs(first, AttemptOf(env, w).ws)
  }

  /** The references of the rendered workloads that a scope still lacks. */
  ghost function LackingIn(first: seq<Rendered>, s: Server): set<ScopeRetries.Place> {
    ScopeRetries.Lacking(first, s)
  }

  /** A successful Apply takes away no reference that is rendered. */
  lemma {:induction false} SuccessKeepsRendered(c: Config, status: seq<WorkloadStatus>, ws: seq<Rendered>, s: Server, x: Key, k: Key)
    requires ScopeMembership.Fresh(ws, s) && ScopeMembership.DistinctWorkloads(ws) && ScopeMembership.RenderedPair(ws, x, k)
    requires Applied(c, status, ws, s).result == Done
    ensures ScopeMembership.Held(s, k, x) <= ScopeMembership.Held(Applied(c, status, ws, s).server, k, x)
    ensures ScopeMembership.Asks(s, k) <==> ScopeMembership.Asks(Applied(c, status, ws, s).server, k)
  {
    var p := ApplyWorkloads(c, ws, s);
    ScopeMembership.AddWorkloads(c, ws, s, s, ws);
    ScopeMembership.AddedKeepsHeld(s, p.server, ws, k, x);
    ScopeMembership.DereferenceEffect(c, status, ws, p.server);
    assert !ScopeMembership.Recorded(status, ws)(k, x);
  }

  lemma {:induction false} SuccessShrinks(c: Config, status: seq<WorkloadStatus>, ws: seq<Rendered>, s: Server)
    requires ScopeMembership.Fresh(ws, s) && ScopeMembership.DistinctWorkloads(ws) && Applied(c, status, ws, s).result == Done
    ensures LackingIn(ws, Applied(c, status, ws, s).server) <= LackingIn(ws, s)
  {
    var t := Applied(c, status, ws, s).server;
    forall place | place in LackingIn(ws, t) ensures place in LackingIn(ws, s) {
      SuccessKeepsRendered(c, status, ws, s, place.workload, place.scope);
    }
  }

  lemma {:induction false} RoundScopes(env: Env, w: World)
    requires Syncing(env, w) && RenderFor(env, w.app, Tick(w.server)).Some?
    ensures ScopeMembership.ScopesAlike(ScopeRetries.Result(AttemptOf(env, w), w.app.status).server, Reconciled(env, w).server)
  {
    var ws := RenderFor(env, w.app, Tick(w.server)).value;
    var p := Applied(ConfigFor(env, w.app), w.app.status, ws, Tick(w.server));
    CollectEffect(env.net, Eligible(w.app.status, RenderedRefs(ws)), p.server);
  }

  /** A well-formed round lacks no more references after it than before; one that does not complete lacks fewer. */
  lemma {:induction false} RoundShrinks(env: Env, w: World, first: seq<Rendered>)
    requires WellFormedRound(env, w, first)
    ensures LackingIn(first, Reconciled(env, w).server) <= LackingIn(first, w.server)
    ensures !CompletesIn(env, w) ==> LackingIn(first, Reconciled(env, w).server) < LackingIn(first, w.server)
  {
    var a := AttemptOf(env, w);
    var t := ScopeRetries.Result(a, w.app.status).server;
    RenderedScopes(env, w.app, Tick(w.server));
    ScopeRetries.NothingElseGoesWrong(a, w.app.status);
    RoundScopes(env, w);
    ScopeRetries.SameLacking(first, a.ws, w.server, a.server);
    ScopeRetries.SameLacking(first, a.ws, Reconciled(env, w).server, t);
    if ScopeRetries.Result(a, w.app.status).result == Done {
      SuccessShrinks(a.config, w.app.status, a.ws, a.server);
    } else {
      ScopeRetries.ConflictIsProgress(a.config, w.app.status, a.ws, a.server);
    }
  }

  /** When no reference is lacking, a well-formed round completes. */
  lemma {:induction false} NothingLackingCompletes(env: Env, w: World, first: seq<Rendered>)
    requires WellFormedRound(env, w, first) && LackingIn(first, w.server) == {}
    ensures CompletesIn(env, w)
  {
    RoundShrinks(env, w, first);
  }

  /** A well-formed round, or others who leave the scopes as they are. */
  ghost predicate SteadyStep(w: World, v: World, e: Event, first: seq<Rendered>) {
    match e
    case Round(env) => WellFormedRound(env, w, first)
    case Others => ScopeMembership.ScopesAlike(w.server, v.server)
    case _ => false
  }

  ghost predicate SteadyAt(worlds: seq<World>, events: seq<Event>, t: nat, first: seq<Rendered>)
    requires |worlds| == |events| + 1
  {
    t < |events| && SteadyStep(worlds[t], worlds[t + 1], events[t], first)
  }

  ghost predicate SteadyBetween(worlds: seq<World>, events: seq<Event>, a: nat, b: nat, first: seq<Rendered>)
    requires |worlds| == |events| + 1
  {
    b <= |events| && forall t: nat {:trigger SteadyAt(worlds, events, t, first)} :: a <= t < b ==> SteadyAt(worlds, events, t, first)
  }

  function RoundsBetween(events: seq<Event>, a: nat, b: nat): nat
    requires a <= b <= |events|
    decreases b
  {
    if a == b then 0 else RoundsBetween(events, a, b - 1) + if events[b - 1].Round? then 1 else 0
  }

  lemma {:induction false} OneMoreCompletion(worlds: seq<World>, events: seq<Event>, a: nat, b: nat)
    requires |worlds| == |events| + 1 && a < b <= |events|
    ensures CompletedBetween(worlds, events, a, b)
         == CompletedBetween(worlds, events, a, b - 1) + if CompletesAt(worlds, events, b - 1) then 1 else 0
  {
    var before, flags := CompletionsBetween(worlds, events, a, b - 1), CompletionsBetween(worlds, events, a, b);
    assert a + (b - a - 1) == b - 1;
    assert flags[b - a - 1] == CompletesAt(worlds, events, b - 1);
    assert flags[..|flags| - 1] == before;
  }

  lemma {:induction false} SteadyShrinks(worlds: seq<World>, events: seq<Event>, ours: set<Key>, first: seq<Rendered>, t: nat)
    requires IsLife(worlds, events, ours) && SteadyAt(worlds, events, t, first)
    ensures var before, after := LackingIn(first, worlds[t].server), LackingIn(first, worlds[t + 1].server);
            && |after| <= |before|
            && (events[t].Round? && !CompletesAt(worlds, events, t) ==> |after| < |before|)
  {
    assert StepAt(worlds, events, ours, t);
    var before, after := LackingIn(first, worlds[t].server), LackingIn(first, worlds[t + 1].server);
    if events[t].Round? {
      RoundShrinks(events[t].env, worlds[t], first);
    } else {
      SamePairsAsItself(first);
      ScopeRetries.SameLacking(first, first, worlds[t].server, worlds[t + 1].server);
    }
    Sets.SubsetSize(after, before);
  }

  lemma {:induction false} SamePairsAsItself(ws: seq<Rendered>)
    ensures ScopeRetries.SamePairs(ws, ws)
  {
  }

  /** Of a stretch of well-formed rounds, at most as many do not complete as references were lacking at first. */
  lemma {:induction false} FewRoundsFail(worlds: seq<World>, events: seq<Event>, ours: set<Key>, first: seq<Rendered>, a: nat, b: nat)
    requires IsLife(worlds, events, ours) && a <= b && SteadyBetween(worlds, events, a, b, first)
    ensures RoundsBetween(events, a, b) + |LackingIn(first, worlds[b].server)|
         <= CompletedBetween(worlds, events, a, b) + |LackingIn(first, worlds[a].server)|
    decreases b
  {
    if a < b {
      FewRoundsFail(worlds, events, ours, first, a, b - 1);
      assert SteadyAt(worlds, events, b - 1, first);
      SteadyShrinks(worlds, events, ours, first, b - 1);
      OneMoreCompletion(worlds, events, a, b);
    }
  }

  /** Put together: over one acyclic graph whose sources are filled, in a cluster where nothing else goes wrong, every
      object of the graph is in place after as many rounds as there are objects, plus one for each scope reference that
      was lacking. That an unchanged spec draws one graph is proved in Convergence. */
  lemma {:induction false} GraphIsApplied(
    worlds: seq<World>, events: seq<Event>, ours: set<Key>, a: nat, b: nat, graph: seq<Dependencies.Component>, first: seq<Rendered>)
    requires IsLife(worlds, events, ours) && a <= b && GraphBetween(worlds, events, a, b, graph) && SteadyBetween(worlds, events, a, b, first)
    requires DependencyRounds.KeepsKeys(graph) && DependencyRounds.Acyclic(graph)
    requires SparedBetween(worlds, events, a, b, graph) && FilledBetween(worlds, events, a, b, graph)
    requires RoundsBetween(events, a, b) >= |Dependencies.Nodes(graph)| + |LackingIn(first, worlds[a].server)|
    ensures DependencyRounds.KeysOf(Dependencies.Nodes(graph)) <= worlds[b].server.objects.Keys
  {
    FewRoundsFail(worlds, events, ours, first, a, b);
    AcyclicLifeFinishes(worlds, events, ours, a, b, graph);
  }
}
