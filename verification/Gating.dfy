/** Dependency handling as part of rendering: the drawn objects become trees, the gate fills them and holds some
    back, and what it leaves is read back. */
module Gating {
  import opened Wrappers
  import opened Kube
  import opened Headers
  import opened FieldPaths
  import opened Trees
  import opened Dependencies
  import Apply
  import Cluster
  import Drawing = Rendering
  import DependencyRender

  function NodeOf(m: Apply.Manifest, inputs: seq<DataInput>, outputs: seq<DataOutput>): Node {
    Node(TreeOf(m.key, m.body), inputs, outputs)
  }

  function GraphComponent(e: Drawing.ComponentEntry, w: Apply.Rendered): (c: Component)
    requires |e.traits| == |w.traits|
    ensures |c.traits| == |w.traits|
  {
    Component(NodeOf(w.manifest, e.inputs, e.outputs),
      seq(|e.traits|, j requires 0 <= j < |e.traits| => NodeOf(w.traits[j].manifest, e.traits[j].inputs, e.traits[j].outputs)))
  }

  function GraphOf(es: seq<Drawing.ComponentEntry>, ws: seq<Apply.Rendered>): (app: seq<Component>)
    requires Drawing.Aligned(es, ws)
    ensures |app| == |ws| && forall i :: 0 <= i < |ws| ==> |app[i].traits| == |ws[i].traits|
  {
    seq(|es|, i requires 0 <= i < |es| => GraphComponent(es[i], ws[i]))
  }

  /** How many objects the first i workloads and their traits are. */
  function Offset(ws: seq<Apply.Rendered>, i: nat): nat
    requires i <= |ws|
  {
    if i == 0 then 0 else Offset(ws, i - 1) + 1 + |ws[i - 1].traits|
  }

  function ReadManifest(v: Value): Apply.Manifest {
    Apply.Manifest(KeyOf(v), BodyOf(v))
  }

  /** A workload and its traits as the gate leaves them. */
  function Regained(w: Apply.Rendered, gs: seq<Gated>): Apply.Rendered
    requires |gs| == 1 + |w.traits|
  {
    w.(manifest := ReadManifest(gs[0].content),
       hasDep := gs[0].hasDep,
       traits := seq(|w.traits|, j requires 0 <= j < |w.traits| =>
         w.traits[j].(manifest := ReadManifest(gs[1 + j].content), hasDep := gs[1 + j].hasDep)))
  }

  /** The first m workloads, as the gate leaves them. */
  function RegainedFirst(ws: seq<Apply.Rendered>, gs: seq<Gated>, m: nat): (vs: seq<Apply.Rendered>)
    requires m <= |ws| && Offset(ws, m) <= |gs|
    ensures |vs| == m
  {
    if m == 0 then []
    else RegainedFirst(ws, gs, m - 1) + [Regained(ws[m - 1], gs[Offset(ws, m - 1)..Offset(ws, m)])]
  }

  function RegainedAll(ws: seq<Apply.Rendered>, gs: seq<Gated>): (vs: seq<Apply.Rendered>)
    requires |gs| == Offset(ws, |ws|)
    ensures |vs| == |ws|
  {
    RegainedFirst(ws, gs, |ws|)
  }

  lemma {:induction false} RegainedAmongFirst(ws: seq<Apply.Rendered>, gs: seq<Gated>, m: nat, i: nat)
    requires i < m <= |ws| && Offset(ws, m) <= |gs|
    ensures Offset(ws, i + 1) <= |gs|
    ensures RegainedFirst(ws, gs, m)[i] == Regained(ws[i], gs[Offset(ws, i)..Offset(ws, i + 1)])
    decreases m
  {
    if i < m - 1 {
      RegainedAmongFirst(ws, gs, m - 1, i);
    }
  }

  lemma {:induction false} RegainedAt(ws: seq<Apply.Rendered>, gs: seq<Gated>, i: nat)
    requires |gs| == Offset(ws, |ws|) && i < |ws|
    ensures Offset(ws, i) + 1 + |ws[i].traits| <= |gs|
    ensures RegainedAll(ws, gs)[i] == Regained(ws[i], gs[Offset(ws, i)..Offset(ws, i) + 1 + |ws[i].traits|])
  {
    RegainedAmongFirst(ws, gs, |ws|, i);
  }

  lemma {:induction false} NodesInTurn(a: seq<Component>, b: seq<Component>)
    ensures Nodes(a + b) == Nodes(a) + Nodes(b)
    decreases |a|
  {
    if a == [] {
      assert a + b == b;
    } else {
      assert (a + b)[1..] == a[1..] + b;
      NodesInTurn(a[1..], b);
    }
  }

  lemma {:induction false} NodesUpTo(es: seq<Drawing.ComponentEntry>, ws: seq<Apply.Rendered>, i: nat)
    requires Drawing.Aligned(es, ws) && i <= |ws|
    ensures |Nodes(GraphOf(es, ws)[..i])| == Offset(ws, i)
  {
    var app := GraphOf(es, ws);
    if i > 0 {
      NodesUpTo(es, ws, i - 1);
      assert app[..i] == app[..i - 1] + [app[i - 1]];
      NodesInTurn(app[..i - 1], [app[i - 1]]);
      assert [app[i - 1]][1..] == [];
    }
  }

  lemma {:induction false} NodesOfGraph(es: seq<Drawing.ComponentEntry>, ws: seq<Apply.Rendered>)
    requires Drawing.Aligned(es, ws)
    ensures |Nodes(GraphOf(es, ws))| == Offset(ws, |ws|)
  {
    NodesUpTo(es, ws, |ws|);
    assert GraphOf(es, ws)[..|ws|] == GraphOf(es, ws);
  }

  lemma {:induction false} NodesAround(app: seq<Component>, i: nat)
    requires i < |app|
    ensures Nodes(app) == Nodes(app[..i]) + ([app[i].workload] + app[i].traits + Nodes(app[i + 1..]))
  {
    assert app == app[..i] + app[i..];
    NodesInTurn(app[..i], app[i..]);
    assert app[i..][0] == app[i] && app[i..][1..] == app[i + 1..];
  }

  lemma {:induction false} InTheMiddle<T>(all: seq<T>, before: seq<T>, x: T, mid: seq<T>, after: seq<T>)
    requires all == before + ([x] + mid + after)
    ensures |all| >= |before| + 1 + |mid| && all[|before|] == x
    ensures all[|before| + 1..|before| + 1 + |mid|] == mid
  {
  }

  /** From position o on, the nodes are those of one component. */
  predicate IsAt(nodes: seq<Node>, o: nat, c: Component) {
    |nodes| >= o + 1 + |c.traits| && nodes[o] == c.workload && nodes[o + 1..o + 1 + |c.traits|] == c.traits
  }

  lemma {:induction false} ComponentIsAt(app: seq<Component>, i: nat)
    requires i < |app|
    ensures IsAt(Nodes(app), |Nodes(app[..i])|, app[i])
  {
    NodesAround(app, i);
    InTheMiddle(Nodes(app), Nodes(app[..i]), app[i].workload, app[i].traits, Nodes(app[i + 1..]));
  }

  /** Where a workload and its traits are among the nodes. */
  lemma {:induction false} NodeAt(es: seq<Drawing.ComponentEntry>, ws: seq<Apply.Rendered>, i: nat)
    requires Drawing.Aligned(es, ws) && i < |ws|
    ensures |Nodes(GraphOf(es, ws))| == Offset(ws, |ws|)
    ensures IsAt(Nodes(GraphOf(es, ws)), Offset(ws, i), GraphComponent(es[i], ws[i]))
  {
    NodesOfGraph(es, ws);
    NodesUpTo(es, ws, i);
    ComponentIsAt(GraphOf(es, ws), i);
  }

  /** handleDependency over everything that was drawn; None is an error. */
  function GateAll(es: seq<Drawing.ComponentEntry>, ws: seq<Apply.Rendered>, snap: Snapshot, ac: Value): (r: Option<seq<Apply.Rendered>>)
    requires Drawing.Aligned(es, ws)
    ensures r.Some? ==> |r.value| == |ws|
  {
    match Render(GraphOf(es, ws), snap, ac)
    case None => None
    case Some(r) =>
      NodesOfGraph(es, ws);
      Some(RegainedAll(ws, r.objects))
  }

  /** The cluster as dependency handling reads it. */
  function SnapshotOf(s: Cluster.Server, unreadable: set<Key>): Snapshot {
    Snapshot(map k | k in s.objects :: TreeOf(k, s.objects[k].body), unreadable)
  }

  // ---------- what dependency handling leaves as it was ----------

  /** No input is declared to fill the object's labels. */
  predicate KeepsLabels(inputs: seq<DataInput>) {
    KeepsPaths(inputs, [LABELS])
  }

  /** No input is declared to fill the object's labels or annotations. */
  predicate KeepsStamp(inputs: seq<DataInput>) {
    KeepsPaths(inputs, STAMP_PATHS)
  }

  /** No input is declared to fill the object's owners. */
  predicate KeepsOwner(inputs: seq<DataInput>) {
    KeepsPaths(inputs, [OWNERS])
  }

  /** What stays of an object, each part by itself, if its inputs are not declared to fill that part. */
  predicate KeptBy(inputs: seq<DataInput>, m: Apply.Manifest, n: Apply.Manifest) {
    && (KeepsKey(inputs) ==> n.key == m.key)
    && (KeepsLabels(inputs) ==> n.body.labels == m.body.labels)
    && (KeepsStamp(inputs) ==> n.body.labels == m.body.labels && n.body.annotations == m.body.annotations)
    && (KeepsOwner(inputs) ==> n.body.owner == m.body.owner)
  }

  /** What always stays of a workload, and what stays of its objects. */
  predicate GatedAs(e: Drawing.ComponentEntry, w: Apply.Rendered, v: Apply.Rendered)
    requires |e.traits| == |w.traits|
  {
    && v.componentName == w.componentName && v.revisionName == w.revisionName && v.scopes == w.scopes
    && v.revisionEnabled == w.revisionEnabled && |v.traits| == |w.traits|
    && KeptBy(e.inputs, w.manifest, v.manifest)
    && forall j :: 0 <= j < |w.traits| ==>
         v.traits[j].dummy == w.traits[j].dummy && KeptBy(e.traits[j].inputs, w.traits[j].manifest, v.traits[j].manifest)
  }

  lemma {:induction false} GatedOneByOne(done: Rendering, nodes: seq<Node>, sources: Sources, snap: Snapshot, ac: Value, i: nat)
    requires GateNodes(done, nodes, sources, snap, ac).Some? && i < |nodes|
    ensures GateNode(nodes[i], sources, snap, ac).Some?
    ensures GateNodes(done, nodes, sources, snap, ac).value.objects[|done.objects| + i]
         == GateNode(nodes[i], sources, snap, ac).value.obj
    decreases |nodes|
  {
    var g := GateNode(nodes[0], sources, snap, ac).value;
    if i > 0 {
      GatedOneByOne(Extend(done, g), nodes[1..], sources, snap, ac, i - 1);
    } else {
      GatedBefore(Extend(done, g), nodes[1..], sources, snap, ac, |done.objects|);
    }
  }

  lemma {:induction false} GatedBefore(done: Rendering, nodes: seq<Node>, sources: Sources, snap: Snapshot, ac: Value, k: nat)
    requires GateNodes(done, nodes, sources, snap, ac).Some? && k < |done.objects|
    ensures GateNodes(done, nodes, sources, snap, ac).value.objects[k] == done.objects[k]
    decreases |nodes|
  {
    if nodes != [] {
      GatedBefore(Extend(done, GateNode(nodes[0], sources, snap, ac).value), nodes[1..], sources, snap, ac, k);
    }
  }

  predicate IsGate(n: Node, g: Gated, sources: Sources, snap: Snapshot, ac: Value) {
    GateNode(n, sources, snap, ac).Some? && g == GateNode(n, sources, snap, ac).value.obj
  }

  lemma {:induction false} ObjectAt(app: seq<Component>, snap: Snapshot, ac: Value, k: nat)
    requires Render(app, snap, ac).Some? && k < |Nodes(app)|
    ensures IsGate(Nodes(app)[k], Render(app, snap, ac).value.objects[k], SourcesOf(app), snap, ac)
  {
    GatedOneByOne(Rendering([], []), Nodes(app), SourcesOf(app), snap, ac, k);
    assert Render(app, snap, ac).value.objects[0 + k] == Render(app, snap, ac).value.objects[k];
  }

  /** What the gate leaves of a component's workload and traits. */
  predicate GatesOf(c: Component, own: seq<Gated>, sources: Sources, snap: Snapshot, ac: Value) {
    && |own| == 1 + |c.traits| && IsGate(c.workload, own[0], sources, snap, ac)
    && forall j :: 0 <= j < |c.traits| ==> IsGate(c.traits[j], own[1 + j], sources, snap, ac)
  }

  lemma {:induction false} ObjectsAt(app: seq<Component>, snap: Snapshot, ac: Value, o: nat, c: Component)
    requires Render(app, snap, ac).Some? && IsAt(Nodes(app), o, c)
    ensures GatesOf(c, Render(app, snap, ac).value.objects[o..o + 1 + |c.traits|], SourcesOf(app), snap, ac)
  {
    var nodes, objects := Nodes(app), Render(app, snap, ac).value.objects;
    var own := objects[o..o + 1 + |c.traits|];
    ObjectAt(app, snap, ac, o);
    forall j | 0 <= j < |c.traits| ensures IsGate(c.traits[j], own[1 + j], SourcesOf(app), snap, ac) {
      ObjectAt(app, snap, ac, o + 1 + j);
      assert nodes[o + 1..o + 1 + |c.traits|][j] == nodes[o + 1 + j];
      assert own[1 + j] == objects[o + 1 + j];
    }
  }

  lemma {:induction false} SliceOf(app: seq<Component>, snap: Snapshot, ac: Value, objects: seq<Gated>, o: nat, c: Component, n: nat) returns (own: seq<Gated>)
    requires Render(app, snap, ac).Some? && objects == Render(app, snap, ac).value.objects && IsAt(Nodes(app), o, c) && n == |c.traits|
    ensures o + 1 + n <= |objects| && own == objects[o..o + 1 + n] && GatesOf(c, own, SourcesOf(app), snap, ac)
  {
    ObjectsAt(app, snap, ac, o, c);
    own := objects[o..o + 1 + n];
  }

  lemma {:induction false} OwnObjects(
    es: seq<Drawing.ComponentEntry>, ws: seq<Apply.Rendered>, snap: Snapshot, ac: Value, objects: seq<Gated>, i: nat) returns (own: seq<Gated>)
    requires Drawing.Aligned(es, ws) && Render(GraphOf(es, ws), snap, ac).Some? && i < |ws|
    requires objects == Render(GraphOf(es, ws), snap, ac).value.objects
    ensures GatesOf(GraphComponent(es[i], ws[i]), own, SourcesOf(GraphOf(es, ws)), snap, ac)
    ensures var o := Offset(ws, i); o + 1 + |ws[i].traits| <= |objects| && own == objects[o..o + 1 + |ws[i].traits|]
  {
    NodeAt(es, ws, i);
    own := SliceOf(GraphOf(es, ws), snap, ac, objects, Offset(ws, i), GraphComponent(es[i], ws[i]), |ws[i].traits|);
  }

  /** Each workload and its traits are gated one by one, all against the same sources. */
  lemma {:induction false} GatedAt(es: seq<Drawing.ComponentEntry>, ws: seq<Apply.Rendered>, snap: Snapshot, ac: Value, i: nat) returns (own: seq<Gated>)
    requires Drawing.Aligned(es, ws) && GateAll(es, ws, snap, ac).Some? && i < |ws|
    ensures GatesOf(GraphComponent(es[i], ws[i]), own, SourcesOf(GraphOf(es, ws)), snap, ac)
    ensures GateAll(es, ws, snap, ac).value[i] == Regained(ws[i], own)
  {
    var objects := GatedObjects(es, ws, snap, ac);
    own := OwnObjects(es, ws, snap, ac, objects, i);
    RegainedAt(ws, objects, i);
  }

  lemma {:induction false} GatedObjects(es: seq<Drawing.ComponentEntry>, ws: seq<Apply.Rendered>, snap: Snapshot, ac: Value) returns (objects: seq<Gated>)
    requires Drawing.Aligned(es, ws) && GateAll(es, ws, snap, ac).Some?
    ensures Render(GraphOf(es, ws), snap, ac).Some? && objects == Render(GraphOf(es, ws), snap, ac).value.objects
    ensures |objects| == Offset(ws, |ws|) && GateAll(es, ws, snap, ac) == Some(RegainedAll(ws, objects))
  {
    NodesOfGraph(es, ws);
    objects := Render(GraphOf(es, ws), snap, ac).value.objects;
  }

  lemma {:induction false} PathsKept(
    m: Apply.Manifest, inputs: seq<DataInput>, outputs: seq<DataOutput>, g: Gated, sources: Sources, snap: Snapshot, ac: Value, kept: seq<Path>)
    requires IsGate(NodeOf(m, inputs, outputs), g, sources, snap, ac) && KeepsPaths(inputs, kept)
    ensures SameAt(g.content, TreeOf(m.key, m.body), kept)
  {
    GatedKeeps(inputs, sources, TreeOf(m.key, m.body), snap, ac, kept);
  }

  /** What the same paths mean for the objects that are read back. */
  lemma {:induction false} SamePathsReadBack(m: Apply.Manifest, v: Value)
    ensures SameAt(v, TreeOf(m.key, m.body), KEY_PATHS) ==> ReadManifest(v).key == m.key
    ensures SameAt(v, TreeOf(m.key, m.body), [LABELS]) ==> ReadManifest(v).body.labels == m.body.labels
    ensures SameAt(v, TreeOf(m.key, m.body), STAMP_PATHS) ==>
              ReadManifest(v).body.labels == m.body.labels && ReadManifest(v).body.annotations == m.body.annotations
    ensures SameAt(v, TreeOf(m.key, m.body), [OWNERS]) ==> ReadManifest(v).body.owner == m.body.owner
  {
    var t := TreeOf(m.key, m.body);
    ReadsBack(m.key, m.body);
    if SameAt(v, t, KEY_PATHS) { SameKey(v, t); }
    if SameAt(v, t, [LABELS]) { SameLabels(v, t); }
    if SameAt(v, t, STAMP_PATHS) { SameStamp(v, t); }
    if SameAt(v, t, [OWNERS]) { SameOwner(v, t); }
  }

  lemma {:induction false} ObjectKept(m: Apply.Manifest, inputs: seq<DataInput>, outputs: seq<DataOutput>, g: Gated, sources: Sources, snap: Snapshot, ac: Value)
    requires IsGate(NodeOf(m, inputs, outputs), g, sources, snap, ac)
    ensures KeptBy(inputs, m, ReadManifest(g.content))
  {
    SamePathsReadBack(m, g.content);
    if KeepsKey(inputs) { PathsKept(m, inputs, outputs, g, sources, snap, ac, KEY_PATHS); }
    if KeepsLabels(inputs) { PathsKept(m, inputs, outputs, g, sources, snap, ac, [LABELS]); }
    if KeepsStamp(inputs) { PathsKept(m, inputs, outputs, g, sources, snap, ac, STAMP_PATHS); }
    if KeepsOwner(inputs) { PathsKept(m, inputs, outputs, g, sources, snap, ac, [OWNERS]); }
  }

  lemma {:induction false} RegainedKeeps(e: Drawing.ComponentEntry, w: Apply.Rendered, own: seq<Gated>, sources: Sources, snap: Snapshot, ac: Value)
    requires |e.traits| == |w.traits| && GatesOf(GraphComponent(e, w), own, sources, snap, ac)
    ensures GatedAs(e, w, Regained(w, own))
  {
    ObjectKept(w.manifest, e.inputs, e.outputs, own[0], sources, snap, ac);
    forall j | 0 <= j < |w.traits|
      ensures KeptBy(e.traits[j].inputs, w.traits[j].manifest, ReadManifest(own[1 + j].content))
    {
      assert IsGate(GraphComponent(e, w).traits[j], own[1 + j], sources, snap, ac);
      ObjectKept(w.traits[j].manifest, e.traits[j].inputs, e.traits[j].outputs, own[1 + j], sources, snap, ac);
    }
  }

  /** Dependency handling may fail, hold objects back and fill them in. It touches no scope and no name of a
      component or revision, and of an object its key, its labels, its stamp and its owner each stay if the object's
      inputs are not declared to fill them. */
  lemma {:induction false} GateKeeps(es: seq<Drawing.ComponentEntry>, ws: seq<Apply.Rendered>, snap: Snapshot, ac: Value)
    requires Drawing.Aligned(es, ws) && GateAll(es, ws, snap, ac).Some?
    ensures var vs := GateAll(es, ws, snap, ac).value;
            |vs| == |ws| && forall i :: 0 <= i < |ws| ==> GatedAs(es[i], ws[i], vs[i])
  {
    var vs := GateAll(es, ws, snap, ac).value;
    forall i | 0 <= i < |ws| ensures GatedAs(es[i], ws[i], vs[i]) {
      var own := GatedAt(es, ws, snap, ac, i);
      RegainedKeeps(es[i], ws[i], own, SourcesOf(GraphOf(es, ws)), snap, ac);
    }
  }

  /** An input that fills metadata.name: the object goes by whatever its source says at the time, so that its name is no
      longer one the controller gave it or looks up. */
  lemma {:induction false} FilledNameFollowsTheSource(
    m: Apply.Manifest, input: DataInput, outputs: seq<DataOutput>, sources: Sources, snap: Snapshot, ac: Value, name: string)
    requires Named(input) && input.outputName in sources && input.toFieldPaths == [NAME] && input.conditions == []
    requires GetDataInput(sources[input.outputName], snap, ac, false) == Ready(Text(name))
    ensures var g := GateNode(NodeOf(m, [input], outputs), sources, snap, ac);
            g.Some? && !g.value.obj.hasDep && ReadManifest(g.value.obj.content).key == m.key.(name := name)
  {
    var t := TreeOf(m.key, m.body);
    var v := FillRenames(m.key, m.body, name);
    assert HandleInput(input, sources, t, snap, ac) == Filled(v);
    assert [input][1..] == [];
    assert HandleInputs([input], sources, t, snap, ac) == HandleInputs([input][1..], sources, v, snap, ac);
  }

  // ---------- in place ----------

  method HandleDependencies(es: seq<Drawing.ComponentEntry>, ws: seq<Apply.Rendered>, snap: Snapshot, ac: Value)
    returns (r: Option<seq<Apply.Rendered>>)
    requires Drawing.Aligned(es, ws)
    ensures r == GateAll(es, ws, snap, ac)
  {
    var ok, objects, unsatisfied := DependencyRender.Render(GraphOf(es, ws), snap, ac);
    if !ok {
      return None;
    }
    NodesOfGraph(es, ws);
    ghost var gs := Render(GraphOf(es, ws), snap, ac).value.objects;
    var contents := seq(|objects|, i requires 0 <= i < |objects| reads objects => Gated(objects[i].content, objects[i].hasDep));
    assert contents == gs;
    r := Some(RegainedAll(ws, contents));
  }
}
