/** The sources of a round and what they hold back, in terms of the spec and the cluster. */
module Outputs {
  import opened Kube
  import opened Headers
  import opened FieldPaths
  import opened Trees
  import opened Dependencies
  import opened Gating
  import Apply
  import Cluster
  import Contents
  import Drawing = Rendering
  import DependencyReconcile
  import Reconcile

  // ---------- what is declared ----------

  /** Output o of this name declares source s for the object that goes by key. */
  predicate DeclaresAs(o: DataOutput, name: string, key: Key, s: Source) {
    o.name == name && s == Source(key, o.fieldPath, o.conditions)
  }

  predicate DeclaredIn(outputs: seq<DataOutput>, name: string, key: Key, s: Source) {
    exists n :: 0 <= n < |outputs| && DeclaresAs(outputs[n], name, key, s)
  }

  /** An entry declares the source for its workload or for one of its traits. */
  predicate EntryDeclares(e: Drawing.ComponentEntry, w: Apply.Rendered, name: string, s: Source)
    requires |e.traits| == |w.traits|
  {
    || DeclaredIn(e.outputs, name, w.manifest.key, s)
    || exists j :: 0 <= j < |e.traits| && DeclaredIn(e.traits[j].outputs, name, w.traits[j].manifest.key, s)
  }

  ghost predicate SpecDeclares(es: seq<Drawing.ComponentEntry>, ws: seq<Apply.Rendered>, name: string, s: Source)
    requires Drawing.Aligned(es, ws)
  {
    exists i :: 0 <= i < |es| && EntryDeclares(es[i], ws[i], name, s)
  }

  predicate IsDeclared(ds: seq<Declaration>, name: string, s: Source) {
    Declaration(name, s) in ds
  }

  lemma DeclaredByExactly(key: Key, outputs: seq<DataOutput>, name: string, s: Source)
    ensures IsDeclared(DeclaredBy(key, outputs), name, s) <==> DeclaredIn(outputs, name, key, s)
  {
    if n :| 0 <= n < |outputs| && DeclaresAs(outputs[n], name, key, s) {
      assert DeclaredBy(key, outputs)[n] == Declaration(name, s);
    }
  }

  predicate NodesDeclare(nodes: seq<Node>, name: string, s: Source) {
    exists n :: 0 <= n < |nodes| && DeclaredIn(nodes[n].outputs, name, KeyOf(nodes[n].content), s)
  }

  lemma {:induction false} DeclaredByAllExactly(nodes: seq<Node>, name: string, s: Source)
    ensures IsDeclared(DeclaredByAll(nodes), name, s) <==> NodesDeclare(nodes, name, s)
  {
    if nodes != [] {
      DeclaredByExactly(KeyOf(nodes[0].content), nodes[0].outputs, name, s);
      DeclaredByAllExactly(nodes[1..], name, s);
      if n :| 0 < n < |nodes| && DeclaredIn(nodes[n].outputs, name, KeyOf(nodes[n].content), s) { assert nodes[1..][n - 1] == nodes[n]; }
      if n :| 0 <= n < |nodes[1..]| && DeclaredIn(nodes[1..][n].outputs, name, KeyOf(nodes[1..][n].content), s) {
        assert nodes[n + 1] == nodes[1..][n];
      }
    }
  }

  predicate ComponentDeclares(c: Component, name: string, s: Source) {
    NodesDeclare(c.traits, name, s) || NodesDeclare([c.workload], name, s)
  }

  lemma {:induction false} DeclarationsExactly(app: seq<Component>, name: string, s: Source)
    ensures IsDeclared(Declarations(app), name, s) <==> exists i :: 0 <= i < |app| && ComponentDeclares(app[i], name, s)
  {
    if app != [] {
      DeclaredByAllExactly(app[0].traits, name, s);
      DeclaredByAllExactly([app[0].workload], name, s);
      DeclarationsExactly(app[1..], name, s);
      if i :| 0 < i < |app| && ComponentDeclares(app[i], name, s) { assert app[1..][i - 1] == app[i]; }
      if i :| 0 <= i < |app[1..]| && ComponentDeclares(app[1..][i], name, s) { assert app[i + 1] == app[1..][i]; }
    }
  }

  lemma NodeDeclares(m: Apply.Manifest, inputs: seq<DataInput>, outputs: seq<DataOutput>, name: string, s: Source)
    ensures var n := NodeOf(m, inputs, outputs); DeclaredIn(n.outputs, name, KeyOf(n.content), s) <==> DeclaredIn(outputs, name, m.key, s)
  {
    ReadsBack(m.key, m.body);
  }

  lemma EntryDeclaresExactly(e: Drawing.ComponentEntry, w: Apply.Rendered, name: string, s: Source)
    requires |e.traits| == |w.traits|
    ensures ComponentDeclares(GraphComponent(e, w), name, s) <==> EntryDeclares(e, w, name, s)
  {
    var c := GraphComponent(e, w);
    NodeDeclares(w.manifest, e.inputs, e.outputs, name, s);
    assert NodesDeclare([c.workload], name, s) <==> DeclaredIn(e.outputs, name, w.manifest.key, s) by { assert [c.workload][0] == c.workload; }
    forall j | 0 <= j < |e.traits|
      ensures DeclaredIn(c.traits[j].outputs, name, KeyOf(c.traits[j].content), s)
         <==> DeclaredIn(e.traits[j].outputs, name, w.traits[j].manifest.key, s)
    {
      NodeDeclares(w.traits[j].manifest, e.traits[j].inputs, e.traits[j].outputs, name, s);
    }
  }

  lemma SpecDeclaresExactly(es: seq<Drawing.ComponentEntry>, ws: seq<Apply.Rendered>, name: string, s: Source)
    requires Drawing.Aligned(es, ws)
    ensures IsDeclared(Declarations(GraphOf(es, ws)), name, s) <==> SpecDeclares(es, ws, name, s)
  {
    var app := GraphOf(es, ws);
    DeclarationsExactly(app, name, s);
    forall i | 0 <= i < |es| ensures ComponentDeclares(app[i], name, s) <==> EntryDeclares(es[i], ws[i], name, s) {
      EntryDeclaresExactly(es[i], ws[i], name, s);
    }
  }

  lemma {:induction false} LastIs(ds: seq<Declaration>, name: string) returns (i: nat)
    requires Declares(ds, name)
    ensures IsLast(ds, i) && ds[i].name == name
  {
    var n := |ds| - 1;
    if ds[n].name == name {
      i := n;
    } else {
      var k :| 0 <= k < |ds| && ds[k].name == name;
      assert ds[..n][k].name == name;
      i := LastIs(ds[..n], name);
      assert forall j :: i < j < n ==> ds[..n][j] == ds[j];
    }
  }

  lemma SourceIsDeclared(app: seq<Component>, name: string)
    ensures name in SourcesOf(app) <==> Declares(Declarations(app), name)
    ensures name in SourcesOf(app) ==> IsDeclared(Declarations(app), name, SourcesOf(app)[name])
  {
    LastDeclarationCounts(app);
    if Declares(Declarations(app), name) {
      var i := LastIs(Declarations(app), name);
    }
  }

  /** A name stands for one of the outputs that the spec declares under it, for the object it is declared of; and every
      name that is declared stands for something. Which one, if there are several, is LastDeclarationCounts. */
  lemma SourcesAreDeclared(es: seq<Drawing.ComponentEntry>, ws: seq<Apply.Rendered>, name: string)
    requires Drawing.Aligned(es, ws)
    ensures name in SourcesOf(GraphOf(es, ws)) ==> SpecDeclares(es, ws, name, SourcesOf(GraphOf(es, ws))[name])
    ensures forall s :: SpecDeclares(es, ws, name, s) ==> name in SourcesOf(GraphOf(es, ws))
  {
    var app := GraphOf(es, ws);
    SourceIsDeclared(app, name);
    if name in SourcesOf(app) { SpecDeclaresExactly(es, ws, name, SourcesOf(app)[name]); }
    forall s | SpecDeclares(es, ws, name, s) ensures name in SourcesOf(app) {
      SpecDeclaresExactly(es, ws, name, s);
      assert Declaration(name, s) in Declarations(app);
    }
  }

  // ---------- what is held back ----------

  /** The cluster as dependency handling reads it: objects as trees, and those that cannot be read. */
  ghost predicate Reads(snap: Snapshot, s: Cluster.Server, unreadable: set<Key>) {
    && snap.unreadable == unreadable && snap.objects.Keys == s.objects.Keys
    && forall k :: k in s.objects ==> snap.objects[k] == TreeOf(k, s.objects[k].body)
  }

  lemma SnapshotReads(s: Cluster.Server, unreadable: set<Key>)
    ensures Reads(SnapshotOf(s, unreadable), s, unreadable)
  {
  }

  /** Every input of the object has arrived, and its own conditions hold. */
  ghost predicate HasArrived(m: Apply.Manifest, inputs: seq<DataInput>, sources: Dependencies.Sources, snap: Snapshot, ac: Value) {
    forall k :: 0 <= k < |inputs| ==> Arrived(inputs[k], sources, snap, ac) && OwnMet(inputs[k], sources, m.key, snap, ac)
  }

  lemma GateHoldsExactlyWhen(m: Apply.Manifest, inputs: seq<DataInput>, outputs: seq<DataOutput>, g: Gated, sources: Dependencies.Sources, snap: Snapshot, ac: Value)
    requires IsGate(NodeOf(m, inputs, outputs), g, sources, snap, ac) && KeepsKey(inputs)
    ensures !g.hasDep <==> HasArrived(ReadManifest(g.content), inputs, sources, snap, ac)
  {
    ReadsBack(m.key, m.body);
    ObjectKept(m, inputs, outputs, g, sources, snap, ac);
    HeldExactlyWhenNotArrived(NodeOf(m, inputs, outputs), sources, snap, ac);
  }

  /** The workload, and each trait, is handed over exactly when its inputs have arrived, if they fill no type and no
      name. */
  ghost predicate HandsWhatArrived(e: Drawing.ComponentEntry, w: Apply.Rendered, sources: Dependencies.Sources, snap: Snapshot, ac: Value) {
    && |w.traits| == |e.traits|
    && (KeepsKey(e.inputs) ==> (!w.hasDep <==> HasArrived(w.manifest, e.inputs, sources, snap, ac)))
    && forall j :: 0 <= j < |w.traits| && KeepsKey(e.traits[j].inputs) ==>
         (!w.traits[j].hasDep <==> HasArrived(w.traits[j].manifest, e.traits[j].inputs, sources, snap, ac))
  }

  lemma RegainedTraitHands(e: Drawing.ComponentEntry, w: Apply.Rendered, own: seq<Gated>, sources: Dependencies.Sources, snap: Snapshot, ac: Value, j: nat)
    requires |e.traits| == |w.traits| && GatesOf(GraphComponent(e, w), own, sources, snap, ac)
    requires j < |w.traits| && KeepsKey(e.traits[j].inputs)
    ensures !own[1 + j].hasDep <==> HasArrived(ReadManifest(own[1 + j].content), e.traits[j].inputs, sources, snap, ac)
  {
    assert IsGate(GraphComponent(e, w).traits[j], own[1 + j], sources, snap, ac);
    GateHoldsExactlyWhen(w.traits[j].manifest, e.traits[j].inputs, e.traits[j].outputs, own[1 + j], sources, snap, ac);
  }

  lemma RegainedHands(e: Drawing.ComponentEntry, w: Apply.Rendered, own: seq<Gated>, sources: Dependencies.Sources, snap: Snapshot, ac: Value)
    requires |e.traits| == |w.traits| && GatesOf(GraphComponent(e, w), own, sources, snap, ac)
    ensures HandsWhatArrived(e, Regained(w, own), sources, snap, ac)
  {
    var r := Regained(w, own);
    if KeepsKey(e.inputs) { GateHoldsExactlyWhen(w.manifest, e.inputs, e.outputs, own[0], sources, snap, ac); }
    forall j | 0 <= j < |w.traits| && KeepsKey(e.traits[j].inputs)
      ensures !r.traits[j].hasDep <==> HasArrived(r.traits[j].manifest, e.traits[j].inputs, sources, snap, ac)
    {
      RegainedTraitHands(e, w, own, sources, snap, ac, j);
    }
  }

  /** Whenever a round renders anything, it hands over exactly what has arrived from the cluster as it finds it. */
  lemma HandedOverExactlyWhen(env: Reconcile.Env, app: Reconcile.App, s: Cluster.Server, i: nat) returns (snap: Snapshot)
    requires Reconcile.RenderFor(env, app, s).Some? && i < |Reconcile.RenderFor(env, app, s).value|
    ensures Reads(snap, s, env.unreadable) && i < |app.spec.components|
    ensures HandsWhatArrived(app.spec.components[i], Reconcile.RenderFor(env, app, s).value[i], Contents.SourcesIn(env, app, s), snap, env.tree)
  {
    var all := DependencyReconcile.DrawnOf(env, app, s);
    snap := SnapshotOf(s, env.unreadable);
    SnapshotReads(s, env.unreadable);
    var own := GatedAt(app.spec.components, all, snap, env.tree, i);
    RegainedHands(app.spec.components[i], all[i], own, Contents.SourcesIn(env, app, s), snap, env.tree);
  }
}
