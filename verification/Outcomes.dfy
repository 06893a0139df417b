/** What one reconcile comes to, on a network that works and in each kind of error. */
module Outcomes {
  import opened Wrappers
  import opened Kube
  import opened Cluster
  import opened AppStatus
  import opened Apply
  import opened Rendering
  import opened Reconcile
  import opened RenderedFacts
  import opened GarbageCollection
  import opened ScopeMembership
  import opened Lifecycle
  import opened ApplyOnce

  // ---------- what is recorded ----------

  /** A trait whose definition is not there, or is a dummy itself. */
  predicate Undefined(cat: Catalogue, ct: ComponentTrait) {
    && cat.definitionName(ct.draft).Some?
    && var name := cat.definitionName(ct.draft).value;
       name !in cat.definitions || (cat.definitions[name].name == "dummy" && cat.definitions[name].referenceName == "dummy")
  }

  /** The entry names the workload, its component and revision, its traits and its scopes, none of them with a UID, and
      says of a trait without a definition that there is none. */
  predicate EntrySays(st: WorkloadStatus, cat: Catalogue, e: ComponentEntry, w: Rendered) {
    && st.componentName == w.componentName && st.revisionName == w.revisionName && st.reference == TypedReference(w.manifest.key, "")
    && |st.traits| == |w.traits| == |e.traits| && |st.scopes| == |w.scopes|
    && (forall j :: 0 <= j < |w.traits| ==>
          && st.traits[j].reference == TypedReference(w.traits[j].manifest.key, "")
          && st.traits[j].message == if Undefined(cat, e.traits[j]) then
               "No valid TraitDefinition found, all framework capabilities will work as default or disabled" else "")
    && forall j :: 0 <= j < |w.scopes| ==> st.scopes[j].reference == TypedReference(w.scopes[j].key, "")
  }

  lemma DummyExactlyWhen(b: Basis, e: ComponentEntry, w: Rendered, j: nat)
    requires DrawsEntry(b, e, w) && j < |e.traits|
    ensures |w.traits| == |e.traits| && (w.traits[j].dummy <==> Undefined(b.cat, e.traits[j]))
  {
    RenderedTraitsOf(b.cat, b.spec, b.status, ComponentOf(e), GetComponent(b.cat, e).value.1, e.traits);
  }

  lemma TraitEntrySays(t: RenderedTrait)
    ensures TraitStatus(t).reference == TypedReference(t.manifest.key, "")
    ensures TraitStatus(t).message == if t.dummy then
              "No valid TraitDefinition found, all framework capabilities will work as default or disabled" else ""
  {
  }

  lemma StatusSays(b: Basis, e: ComponentEntry, w: Rendered, st: WorkloadStatus)
    requires DrawsEntry(b, e, w) && SameRefs(st, StatusOf(w))
    ensures EntrySays(st, b.cat, e, w)
  {
    var rendered := StatusOf(w);
    assert st.(status := "", traits := []) == rendered.(status := "", traits := []);
    assert st.scopes == st.(status := "", traits := []).scopes;
    forall j | 0 <= j < |w.traits|
      ensures st.traits[j].reference == rendered.traits[j].reference && st.traits[j].message == rendered.traits[j].message
    {
      TraitEntrySays(w.traits[j]);
      assert st.traits[j].(status := "") == rendered.traits[j].(status := "");
      assert st.traits[j].(status := "").message == rendered.traits[j].(status := "").message;
      assert st.traits[j].(status := "").reference == rendered.traits[j].(status := "").reference;
    }
    forall j | 0 <= j < |e.traits| ensures |w.traits| == |e.traits| && (w.traits[j].dummy <==> Undefined(b.cat, e.traits[j])) {
      DummyExactlyWhen(b, e, w, j);
    }
    EntryTraits(b, e, w);
  }

  lemma EntryTraits(b: Basis, e: ComponentEntry, w: Rendered)
    requires DrawsEntry(b, e, w)
    ensures |w.traits| == |e.traits|
  {
  }

  // ---------- collection ----------

  lemma {:induction false} CollectQuietly(net: Network, ks: seq<Key>, s: Server)
    requires Quiet(net)
    ensures Collect(net, ks, s).result == Done
    decreases |ks|
  {
    if ks != [] { CollectQuietly(net, ks[1..], DeleteObject(net, s, ks[0]).server); }
  }

  /** Nothing that is eligible outlives a collection that succeeds, and on a network that works it does, objects that are
      gone already included. */
  lemma EligibleIsGone(env: Env, app: App, s: Server, ws: seq<Rendered>, k: Key)
    requires Applied(ConfigFor(env, app), app.status, ws, s).result == Done && k in Eligible(app.status, RenderedRefs(ws))
    ensures Synced(env, app, s, ws).result == Done ==> k !in Synced(env, app, s, ws).server.objects
    ensures Quiet(env.net) ==> Synced(env, app, s, ws).result == Done
  {
    var p := Applied(ConfigFor(env, app), app.status, ws, s);
    CollectEffect(env.net, Eligible(app.status, RenderedRefs(ws)), p.server);
    if Quiet(env.net) { CollectQuietly(env.net, Eligible(app.status, RenderedRefs(ws)), p.server); }
  }

  // ---------- the kinds of round ----------

  /** A round that applies everything, on a network that works, records each workload, leaves what it rendered as applied,
      and collects what is eligible. */
  lemma WorkingRound(env: Env, w: World, ws: seq<Rendered>)
    requires Quiet(env.net) && Syncing(env, w) && RenderFor(env, w.app, Tick(w.server)) == Some(ws)
    requires Applied(ConfigFor(env, w.app), w.app.status, ws, Tick(w.server)).result == Done
    ensures var v := Reconciled(env, w);
            && v.app == w.app.(status := v.app.status) && |v.app.status| == |ws| == |w.app.spec.components|
            && (forall i :: 0 <= i < |ws| ==> EntrySays(v.app.status[i], env.cat, w.app.spec.components[i], ws[i]))
            && forall k :: k in Eligible(w.app.status, RenderedRefs(ws)) ==> k !in v.server.objects
  {
    var s, v := Tick(w.server), Reconciled(env, w);
    CollectQuietly(env.net, Eligible(w.app.status, RenderedRefs(ws)), Applied(ConfigFor(env, w.app), w.app.status, ws, s).server);
    WorkingRoundWrites(env, w, ws);
    PatchKeepsReferences(StatusesOf(ws), w.app.status);
    RoundDraws(env, w.app, s);
    forall i | 0 <= i < |ws| ensures EntrySays(v.app.status[i], env.cat, w.app.spec.components[i], ws[i]) {
      StatusSays(BasisOf(env, w.app, s), w.app.spec.components[i], ws[i], v.app.status[i]);
    }
    forall k | k in Eligible(w.app.status, RenderedRefs(ws)) ensures k !in v.server.objects {
      EligibleIsGone(env, w.app, s, ws, k);
    }
  }

  lemma WorkingRoundWrites(env: Env, w: World, ws: seq<Rendered>)
    requires Quiet(env.net) && Syncing(env, w) && RenderFor(env, w.app, Tick(w.server)) == Some(ws)
    requires Synced(env, w.app, Tick(w.server), ws).result == Done
    ensures var v := Reconciled(env, w);
            && v.app == w.app.(status := Patched(StatusesOf(ws), w.app.status))
            && v.server.objects == Synced(env, w.app, Tick(w.server), ws).server.objects
  {
  }

  lemma TurnedDown(net: Network, s: Server, stored: App, next: App)
    ensures Write(net, s, stored, next).app == if net(s.clock) == Rejected then stored else next
  {
  }

  /** An error in rendering, applying or collecting, or a status that is turned down, leaves the application as it was. */
  lemma FailedRound(env: Env, w: World)
    requires Syncing(env, w)
    ensures var ws := RenderFor(env, w.app, Tick(w.server));
            ws.None? || Synced(env, w.app, Tick(w.server), ws.value).result != Done
            || env.net(Synced(env, w.app, Tick(w.server), ws.value).server.clock) == Rejected ==>
              Reconciled(env, w).app == w.app
    ensures RenderFor(env, w.app, Tick(w.server)).None? ==>
              Reconciled(env, w).server.objects == w.server.objects && Reconciled(env, w).server.scopes == w.server.scopes
  {
    var ws := RenderFor(env, w.app, Tick(w.server));
    if ws.Some? {
      TurnedDown(env.net, Synced(env, w.app, Tick(w.server), ws.value).server, w.app,
                 w.app.(status := Patched(StatusesOf(ws.value), w.app.status)));
    }
  }

  /** A round that finds the application gone, or cannot read it, does nothing. */
  lemma IdleRound(env: Env, w: World)
    requires env.net(w.server.clock) != Works || !w.app.alive
    ensures var v := Reconciled(env, w); v.app == w.app && v.server == w.server.(clock := w.server.clock + 1)
  {
  }

  /** An application with scopes gets its finalizer first, and that round does nothing else. */
  lemma RegisteringRound(env: Env, w: World, i: nat)
    requires Quiet(env.net) && w.app.alive && !w.app.deleting && !w.app.finalizer
    requires i < |w.app.spec.components| && w.app.spec.components[i].scopes != []
    ensures var v := Reconciled(env, w);
            && v.app == w.app.(finalizer := true) && v.server.objects == w.server.objects && v.server.scopes == w.server.scopes
  {
  }

  /** One without scopes never does. */
  lemma UnregisteredRound(env: Env, w: World)
    requires !w.app.deleting && forall i :: 0 <= i < |w.app.spec.components| ==> w.app.spec.components[i].scopes == []
    ensures Reconciled(env, w).app.finalizer == w.app.finalizer
  {
    SyncKeepsFinalizer(env, w.app, Tick(w.server));
  }

  lemma SyncKeepsFinalizer(env: Env, app: App, s: Server)
    ensures Sync(env, app, s).app.finalizer == app.finalizer
  {
  }

  /** A deleted application is rendered no more: its round changes no object, and without a finalizer it is gone. */
  lemma DeletingRound(env: Env, w: World)
    requires w.app.deleting
    ensures Reconciled(env, w).server.objects == w.server.objects && Reconciled(env, w).app.status == w.app.status
    ensures Quiet(env.net) && w.app.alive && !w.app.finalizer ==>
              Reconciled(env, w).app == w.app.(alive := false) && Reconciled(env, w).server.scopes == w.server.scopes
  {
    if env.net(w.server.clock) == Works && w.app.alive {
      FinishKeepsStatus(env, w.app, Tick(w.server));
      FinishLeavesObjects(env, w.app, Tick(w.server));
    }
  }

  lemma FinishLeavesObjects(env: Env, app: App, s: Server)
    ensures Finish(env, app, s).server.objects == s.objects
  {
    FinalizeIsDereferenceOfNothing(ConfigFor(env, app), app.status, s);
    DereferenceLeavesObjects(ConfigFor(env, app), app.status, [], s);
  }
}
