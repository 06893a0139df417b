/** Whole runs of reconcile rounds over one dependency graph, with an outside controller filling sources
    between rounds. */
module DependencyRounds {
  import opened Wrappers
  import opened Sets
  import opened FieldPaths
  import opened Kube
  import opened Headers
  import opened Dependencies

  // ---------- runs ----------

  function KeysOf(nodes: seq<Node>): set<Key> {
    set i | 0 <= i < |nodes| :: KeyOf(nodes[i].content)
  }

  /** What the graph is made of is the same; the content may differ from round to round. */
  predicate SameNode(m: Node, n: Node) {
    KeyOf(m.content) == KeyOf(n.content) && m.inputs == n.inputs && m.outputs == n.outputs
  }

  predicate SameNodes(ms: seq<Node>, ns: seq<Node>) {
    |ms| == |ns| && forall i :: 0 <= i < |ms| ==> SameNode(ms[i], ns[i])
  }

  predicate SameGraph(app: seq<Component>, drawn: seq<Component>) {
    && |app| == |drawn|
    && forall i :: 0 <= i < |app| ==> SameNode(app[i].workload, drawn[i].workload) && SameNodes(app[i].traits, drawn[i].traits)
  }

  /** The application's objects that exist. */
  function Present(app: seq<Component>, snap: Snapshot): set<Key> {
    snap.objects.Keys * KeysOf(Nodes(app))
  }

  function HandedKeys(r: Rendering): set<Key> {
    set i | 0 <= i < |r.objects| && !r.objects[i].hasDep :: KeyOf(r.objects[i].content)
  }

  /** One reconcile round, which renders what is drawn, and whatever happened in the cluster before the next one, if
      nobody deletes the application's objects: the round loses none, and if it completes, everything handed over is
      there. A round completes when neither Render nor Apply returns an error; one that does not may still have
      applied some of the objects. */
  ghost predicate Keeps(app: seq<Component>, drawn: seq<Component>, ac: Value, before: Snapshot, after: Snapshot, completed: bool) {
    && SameGraph(app, drawn) && Present(app, before) <= Present(app, after)
    && match Render(drawn, before, ac)
       case None => !completed
       case Some(r) => completed ==> HandedKeys(r) * KeysOf(Nodes(app)) <= Present(app, after)
  }

  /** The same if nobody else creates the application's objects: what is new was handed over. */
  ghost predicate Gains(app: seq<Component>, drawn: seq<Component>, ac: Value, before: Snapshot, after: Snapshot) {
    && SameGraph(app, drawn)
    && match Render(drawn, before, ac)
       case None => Present(app, after) <= Present(app, before)
       case Some(r) => Present(app, after) <= Present(app, before) + HandedKeys(r)
  }

  /** The outside controller has filled every source whose object exists. */
  ghost predicate SourcesFilled(app: seq<Component>, ac: Value, snap: Snapshot) {
    forall name :: name in SourcesOf(app) && SourcesOf(app)[name].obj in Present(app, snap) ==>
      GetDataInput(SourcesOf(app)[name], snap, ac, false).Ready?
  }

  /** One more snapshot than there are rounds. */
  datatype Run = Run(snaps: seq<Snapshot>, drawn: seq<seq<Component>>, acs: seq<Value>, completed: seq<bool>)

  predicate Fits(run: Run) {
    |run.snaps| == |run.completed| + 1 && |run.acs| == |run.completed| == |run.drawn|
  }

  ghost predicate KeepsAt(app: seq<Component>, run: Run, t: nat)
    requires Fits(run)
  {
    t < |run.completed| ==> Keeps(app, run.drawn[t], run.acs[t], run.snaps[t], run.snaps[t + 1], run.completed[t])
  }

  ghost predicate GainsAt(app: seq<Component>, run: Run, t: nat)
    requires Fits(run)
  {
    t < |run.completed| ==> Gains(app, run.drawn[t], run.acs[t], run.snaps[t], run.snaps[t + 1])
  }

  /** A run in which nobody deletes the application's objects; others may create them. That reconciles are such
      rounds is proved in DependencyReconcile. */
  ghost predicate SparingRun(app: seq<Component>, run: Run) {
    Fits(run) && forall t: nat {:trigger KeepsAt(app, run, t)} :: KeepsAt(app, run, t)
  }

  /** A run in which nobody else creates them; others may delete them. */
  ghost predicate OwnRun(app: seq<Component>, run: Run) {
    Fits(run) && forall t: nat {:trigger GainsAt(app, run, t)} :: GainsAt(app, run, t)
  }

  /** Before a round that completes, every source whose object exists has been filled. */
  ghost predicate AttendedAt(app: seq<Component>, run: Run, t: nat)
    requires Fits(run)
  {
    t < |run.acs| && run.completed[t] ==> SourcesFilled(app, run.acs[t], run.snaps[t])
  }

  ghost predicate Attended(app: seq<Component>, run: Run)
    requires Fits(run)
  {
    forall t: nat {:trigger AttendedAt(app, run, t)} :: AttendedAt(app, run, t)
  }

  /** No input is declared to fill what an object is known by. */
  predicate KeepsKeys(app: seq<Component>) {
    forall i :: 0 <= i < |Nodes(app)| ==> KeepsKey(Nodes(app)[i].inputs)
  }

  function Completed(flags: seq<bool>): nat {
    if flags == [] then 0
    else Completed(flags[..|flags| - 1]) + (if flags[|flags| - 1] then 1 else 0)
  }

  // ---------- the graph ----------

  /** Object b has an input that waits for object a. */
  predicate Edge(app: seq<Component>, a: nat, b: nat)
    requires a < |Nodes(app)| && b < |Nodes(app)|
  {
    exists k :: 0 <= k < |Nodes(app)[b].inputs| && Feeds(app, a, Nodes(app)[b].inputs[k])
  }

  /** The input takes its value from object a. */
  predicate Consumes(app: seq<Component>, a: nat, input: DataInput)
    requires a < |Nodes(app)|
  {
    && Named(input) && input.outputName in SourcesOf(app)
    && SourcesOf(app)[input.outputName].obj == KeyOf(Nodes(app)[a].content)
  }

  predicate Feeds(app: seq<Component>, a: nat, input: DataInput)
    requires a < |Nodes(app)|
  {
    Consumes(app, a, input) && Guarded(SourcesOf(app)[input.outputName])
  }

  predicate IsChain(app: seq<Component>, p: seq<nat>) {
    && p != []
    && (forall i :: 0 <= i < |p| ==> p[i] < |Nodes(app)|)
    && (forall i :: 0 <= i < |p| - 1 ==> Edge(app, p[i], p[i + 1]))
  }

  predicate IsCycle(app: seq<Component>, p: seq<nat>) {
    IsChain(app, p) && |p| >= 2 && p[0] == p[|p| - 1]
  }

  ghost predicate Acyclic(app: seq<Component>) {
    forall p :: !IsCycle(app, p)
  }

  // ---------- sources come from the application's own objects ----------

  lemma {:induction false} OutputsBelong(sources: Sources, key: Key, outputs: seq<DataOutput>, keys: set<Key>)
    requires key in keys && forall name :: name in sources ==> sources[name].obj in keys
    ensures forall name :: name in AddOutputs(sources, key, outputs) ==> AddOutputs(sources, key, outputs)[name].obj in keys
    decreases |outputs|
  {
    if outputs != [] {
      var o := outputs[0];
      OutputsBelong(sources[o.name := Source(key, o.fieldPath, o.conditions)], key, outputs[1..], keys);
    }
  }

  lemma {:induction false} NodesBelong(sources: Sources, nodes: seq<Node>, keys: set<Key>)
    requires forall i :: 0 <= i < |nodes| ==> KeyOf(nodes[i].content) in keys
    requires forall name :: name in sources ==> sources[name].obj in keys
    ensures forall name :: name in AddNodes(sources, nodes) ==> AddNodes(sources, nodes)[name].obj in keys
    decreases |nodes|
  {
    if nodes != [] {
      OutputsBelong(sources, KeyOf(nodes[0].content), nodes[0].outputs, keys);
      NodesBelong(AddOutputs(sources, KeyOf(nodes[0].content), nodes[0].outputs), nodes[1..], keys);
    }
  }

  lemma {:induction false} ComponentsBelong(sources: Sources, app: seq<Component>, keys: set<Key>)
    requires KeysOf(Nodes(app)) <= keys
    requires forall name :: name in sources ==> sources[name].obj in keys
    ensures forall name :: name in AddComponents(sources, app) ==> AddComponents(sources, app)[name].obj in keys
    decreases |app|
  {
    if app != [] {
      var c, nodes := app[0], Nodes(app);
      assert nodes[0] == c.workload;
      forall i | 0 <= i < |c.traits| ensures KeyOf(c.traits[i].content) in keys { assert nodes[1 + i] == c.traits[i]; }
      var d := 1 + |c.traits|;
      forall i | 0 <= i < |Nodes(app[1..])| ensures Nodes(app[1..])[i] == nodes[d + i] {}
      NodesBelong(sources, c.traits, keys);
      NodesBelong(AddNodes(sources, c.traits), [c.workload], keys);
      ComponentsBelong(AddNodes(AddNodes(sources, c.traits), [c.workload]), app[1..], keys);
    }
  }

  lemma SourceObject(app: seq<Component>, name: string) returns (a: nat)
    requires name in SourcesOf(app)
    ensures a < |Nodes(app)| && SourcesOf(app)[name].obj == KeyOf(Nodes(app)[a].content)
  {
    ComponentsBelong(map[], app, KeysOf(Nodes(app)));
    a :| a < |Nodes(app)| && SourcesOf(app)[name].obj == KeyOf(Nodes(app)[a].content);
  }

  // ---------- the drawn application has the same graph ----------

  lemma {:induction false} SameNodesSources(sources: Sources, ms: seq<Node>, ns: seq<Node>)
    requires SameNodes(ms, ns)
    ensures AddNodes(sources, ms) == AddNodes(sources, ns)
    decreases |ms|
  {
    if ms != [] {
      SameNodesSources(AddOutputs(sources, KeyOf(ms[0].content), ms[0].outputs), ms[1..], ns[1..]);
    }
  }

  lemma {:induction false} SameGraphSources(sources: Sources, app: seq<Component>, drawn: seq<Component>)
    requires SameGraph(app, drawn)
    ensures AddComponents(sources, app) == AddComponents(sources, drawn)
    decreases |app|
  {
    if app != [] {
      SameNodesSources(sources, app[0].traits, drawn[0].traits);
      SameNodesSources(AddNodes(sources, app[0].traits), [app[0].workload], [drawn[0].workload]);
      SameGraphSources(AddNodes(AddNodes(sources, app[0].traits), [app[0].workload]), app[1..], drawn[1..]);
    }
  }

  lemma {:induction false} SameGraphNodes(app: seq<Component>, drawn: seq<Component>)
    requires SameGraph(app, drawn)
    ensures SameNodes(Nodes(app), Nodes(drawn))
    decreases |app|
  {
    if app != [] {
      SameGraphNodes(app[1..], drawn[1..]);
    }
  }

  /** What rendering the drawn application says about the objects of the graph. */
  lemma DrawnIsGated(app: seq<Component>, drawn: seq<Component>, ac: Value, snap: Snapshot, b: nat)
    requires SameGraph(app, drawn) && Render(drawn, snap, ac).Some? && b < |Nodes(app)|
    ensures |Nodes(drawn)| == |Nodes(app)| && SameNode(Nodes(app)[b], Nodes(drawn)[b]) && SourcesOf(drawn) == SourcesOf(app)
    ensures var r := Render(drawn, snap, ac).value;
            && |r.objects| == |Nodes(app)|
            && (KeepsKey(Nodes(app)[b].inputs) ==> KeyOf(r.objects[b].content) == KeyOf(Nodes(app)[b].content))
            && (r.objects[b].hasDep <==> HasUnreadyInput(Nodes(drawn)[b], SourcesOf(app), snap, ac))
  {
    SameGraphNodes(app, drawn);
    SameGraphSources(map[], app, drawn);
    GatingIsExact(drawn, snap, ac);
    var r := Render(drawn, snap, ac).value;
    assert GatedExactly(r.objects[b], Nodes(drawn)[b], SourcesOf(drawn), snap, ac);
  }

  // ---------- liveness ----------

  ghost predicate Absent(app: seq<Component>, snap: Snapshot, b: nat)
    requires b < |Nodes(app)|
  {
    KeyOf(Nodes(app)[b].content) !in snap.objects
  }

  lemma AbsentIsNotPresent(app: seq<Component>, snap: Snapshot, b: nat)
    requires b < |Nodes(app)|
    ensures Absent(app, snap, b) <==> KeyOf(Nodes(app)[b].content) !in Present(app, snap)
  {
    assert KeyOf(Nodes(app)[b].content) in KeysOf(Nodes(app));
  }

  lemma HandedMember(r: Rendering, b: nat)
    requires b < |r.objects|
    ensures r.objects[b].hasDep || KeyOf(r.objects[b].content) in HandedKeys(r)
  {
  }

  /** What keeps an object from being handed over while it does not exist: an input whose source is unready. */
  lemma UnreadySource(n: Node, sources: Sources, snap: Snapshot, ac: Value) returns (k: nat)
    requires KeepsKey(n.inputs) && KeyOf(n.content) !in snap.objects && HasUnreadyInput(n, sources, snap, ac)
    ensures k < |n.inputs| && Named(n.inputs[k]) && n.inputs[k].outputName in sources
    ensures GetDataInput(sources[n.inputs[k].outputName], snap, ac, false).NotReady?
  {
    k :| 0 <= k < |n.inputs| && UnreadyAt(n.inputs, k, sources, n.content, snap, ac);
    UnreadyInAnyOrder(n.inputs, k, sources, n.content, snap, ac);
  }

  /** What still keeps an object out after a completed round with attended sources: an object it waits for,
      itself absent when the round began. */
  lemma AbsentSource(app: seq<Component>, drawn: seq<Component>, ac: Value, before: Snapshot, after: Snapshot, b: nat) returns (a: nat)
    requires b < |Nodes(app)| && KeepsKeys(app)
    requires Keeps(app, drawn, ac, before, after, true) && SourcesFilled(app, ac, before)
    requires Absent(app, after, b)
    ensures a < |Nodes(app)| && Edge(app, a, b) && Absent(app, before, a)
  {
    var nodes, sources, r := Nodes(app), SourcesOf(app), Render(drawn, before, ac).value;
    DrawnIsGated(app, drawn, ac, before, b);
    AbsentIsNotPresent(app, after, b);
    AbsentIsNotPresent(app, before, b);
    assert KeyOf(nodes[b].content) in KeysOf(nodes);
    HandedMember(r, b);
    var k := UnreadySource(Nodes(drawn)[b], sources, before, ac);
    var input := nodes[b].inputs[k];
    a := SourceObject(app, input.outputName);
    assert Feeds(app, a, input);
    AbsentIsNotPresent(app, before, a);
  }

  lemma ChainExtends(app: seq<Component>, q: seq<nat>, b: nat)
    requires IsChain(app, q) && b < |Nodes(app)| && Edge(app, q[|q| - 1], b)
    ensures IsChain(app, q + [b])
  {
    var p := q + [b];
    forall i | 0 <= i < |p| - 1 ensures Edge(app, p[i], p[i + 1]) {
      if i < |q| - 1 { assert Edge(app, q[i], q[i + 1]); }
    }
  }

  /** The round before: either it completed, and something b waits for was absent, or b was absent itself. */
  lemma AbsentBefore(app: seq<Component>, run: Run, t: nat, b: nat) returns (a: nat)
    requires SparingRun(app, run) && Attended(app, run) && KeepsKeys(app)
    requires t < |run.completed| && b < |Nodes(app)| && Absent(app, run.snaps[t + 1], b)
    ensures a < |Nodes(app)| && Absent(app, run.snaps[t], a)
    ensures if run.completed[t] then Edge(app, a, b) else a == b
  {
    assert KeepsAt(app, run, t) && AttendedAt(app, run, t);
    if run.completed[t] {
      a := AbsentSource(app, run.drawn[t], run.acs[t], run.snaps[t], run.snaps[t + 1], b);
    } else {
      AbsentIsNotPresent(app, run.snaps[t], b);
      AbsentIsNotPresent(app, run.snaps[t + 1], b);
      a := b;
    }
  }

  lemma {:induction false} ChainBehind(app: seq<Component>, run: Run, t: nat, b: nat) returns (p: seq<nat>)
    requires SparingRun(app, run) && Attended(app, run) && KeepsKeys(app)
    requires t < |run.snaps| && b < |Nodes(app)| && Absent(app, run.snaps[t], b)
    ensures IsChain(app, p) && p[|p| - 1] == b && |p| == 1 + Completed(run.completed[..t])
    decreases t
  {
    if t == 0 {
      p := [b];
    } else {
      assert run.completed[..t][..t - 1] == run.completed[..t - 1];
      var a := AbsentBefore(app, run, t - 1, b);
      p := ChainBehind(app, run, t - 1, a);
      if run.completed[t - 1] {
        ChainExtends(app, p, b);
        p := p + [b];
      }
    }
  }

  lemma PresentAtTheEnd(app: seq<Component>, run: Run, n: nat, b: nat)
    requires SparingRun(app, run) && Attended(app, run) && KeepsKeys(app) && b < |Nodes(app)|
    requires forall p :: IsChain(app, p) ==> |p| <= n
    requires Completed(run.completed) >= n
    ensures !Absent(app, run.snaps[|run.snaps| - 1], b)
  {
    var last := |run.snaps| - 1;
    assert run.completed[..last] == run.completed;
    if Absent(app, run.snaps[last], b) {
      var p := ChainBehind(app, run, last, b);
    }
  }

  /** Dependency rounds converge: if no chain of dependencies holds more than n objects, n completed rounds
      apply every workload and trait, whatever happens in the rounds that fail. */
  lemma ChainsBoundTheRounds(app: seq<Component>, run: Run, n: nat)
    requires SparingRun(app, run) && Attended(app, run) && KeepsKeys(app)
    requires forall p :: IsChain(app, p) ==> |p| <= n
    requires Completed(run.completed) >= n
    ensures KeysOf(Nodes(app)) <= run.snaps[|run.snaps| - 1].objects.Keys
  {
    var last := run.snaps[|run.snaps| - 1];
    forall key | key in KeysOf(Nodes(app)) ensures key in last.objects {
      var b: nat :| b < |Nodes(app)| && KeyOf(Nodes(app)[b].content) == key;
      PresentAtTheEnd(app, run, n, b);
    }
  }

  function Below(n: nat): (s: set<nat>)
    ensures |s| == n && forall x: nat :: x in s <==> x < n
  {
    if n == 0 then {} else Below(n - 1) + {n - 1}
  }

  function Members(p: seq<nat>): set<nat> {
    set i | 0 <= i < |p| :: p[i]
  }

  lemma {:induction false} DistinctSize(p: seq<nat>)
    requires forall i, j :: 0 <= i < j < |p| ==> p[i] != p[j]
    ensures |Members(p)| == |p|
  {
    if p != [] {
      var front, last := p[..|p| - 1], p[|p| - 1];
      DistinctSize(front);
      assert Members(p) == Members(front) + {last};
    }
  }

  /** Pigeonhole. */
  lemma DistinctBelow(p: seq<nat>, n: nat)
    requires forall i :: 0 <= i < |p| ==> p[i] < n
    requires forall i, j :: 0 <= i < j < |p| ==> p[i] != p[j]
    ensures |p| <= n
  {
    DistinctSize(p);
    SubsetSize(Members(p), Below(n));
  }

  lemma RepeatIsCycle(app: seq<Component>, p: seq<nat>, i: nat, j: nat)
    requires IsChain(app, p) && i < j < |p| && p[i] == p[j]
    ensures IsCycle(app, p[i..j + 1])
  {
    var c := p[i..j + 1];
    forall k | 0 <= k < |c| - 1 ensures Edge(app, c[k], c[k + 1]) {
      assert Edge(app, p[i + k], p[i + k + 1]);
    }
  }

  /** In an acyclic graph a chain visits no object twice. */
  lemma AcyclicChainsAreShort(app: seq<Component>, p: seq<nat>)
    requires Acyclic(app) && IsChain(app, p)
    ensures |p| <= |Nodes(app)|
  {
    forall i, j | 0 <= i < j < |p| ensures p[i] != p[j] {
      if p[i] == p[j] { RepeatIsCycle(app, p, i, j); }
    }
    DistinctBelow(p, |Nodes(app)|);
  }

  /** So an acyclic application is fully applied after as many completed rounds as it has objects. */
  lemma AcyclicApplicationsFinish(app: seq<Component>, run: Run)
    requires SparingRun(app, run) && Attended(app, run) && KeepsKeys(app) && Acyclic(app)
    requires Completed(run.completed) >= |Nodes(app)|
    ensures KeysOf(Nodes(app)) <= run.snaps[|run.snaps| - 1].objects.Keys
  {
    forall p | IsChain(app, p) ensures |p| <= |Nodes(app)| {
      AcyclicChainsAreShort(app, p);
    }
    ChainsBoundTheRounds(app, run, |Nodes(app)|);
  }

  // ---------- safety ----------

  ghost predicate DistinctKeys(app: seq<Component>) {
    forall i, j :: 0 <= i < j < |Nodes(app)| ==> KeyOf(Nodes(app)[i].content) != KeyOf(Nodes(app)[j].content)
  }

  /** No other object goes by the name of a member, and none is declared to be renamed. */
  ghost predicate OwnNames(app: seq<Component>, stuck: set<nat>) {
    forall i: nat :: i < |Nodes(app)| && i !in stuck ==>
      KeepsKey(Nodes(app)[i].inputs)
      && forall b :: b in stuck && b < |Nodes(app)| ==> KeyOf(Nodes(app)[i].content) != KeyOf(Nodes(app)[b].content)
  }

  /** Every member of the set waits for a member. */
  ghost predicate SelfFed(app: seq<Component>, stuck: set<nat>) {
    && (forall b :: b in stuck ==> b < |Nodes(app)|)
    && (forall b {:trigger FedFrom(app, stuck, b)} :: b in stuck ==> FedFrom(app, stuck, b))
  }

  ghost predicate FedFrom(app: seq<Component>, stuck: set<nat>, b: nat) {
    b < |Nodes(app)| && exists a :: a in stuck && a < |Nodes(app)| && Edge(app, a, b)
  }

  ghost predicate AllAbsent(app: seq<Component>, snap: Snapshot, stuck: set<nat>) {
    forall b :: b in stuck ==> b < |Nodes(app)| && Absent(app, snap, b)
  }

  /** What feeds on itself is held back, whatever its own inputs are declared to fill, and nothing else is handed over
      under its names. */
  lemma StuckForOneRound(app: seq<Component>, drawn: seq<Component>, ac: Value, before: Snapshot, after: Snapshot, stuck: set<nat>)
    requires OwnNames(app, stuck) && SelfFed(app, stuck)
    requires Gains(app, drawn, ac, before, after) && AllAbsent(app, before, stuck)
    ensures AllAbsent(app, after, stuck)
  {
    if Render(drawn, before, ac).Some? {
      forall i | i in stuck ensures HeldAt(drawn, ac, before, i) {
        assert FedFrom(app, stuck, i);
        var a :| a in stuck && a < |Nodes(app)| && Edge(app, a, i);
        HeldWhileSourceAbsent(app, drawn, ac, before, a, i);
      }
    }
    forall b | b in stuck ensures Absent(app, after, b) {
      AbsentIsNotPresent(app, before, b);
      AbsentIsNotPresent(app, after, b);
      if Render(drawn, before, ac).Some? {
        HeldIsNotHanded(app, drawn, ac, before, stuck, b);
      }
    }
  }

  predicate HeldAt(drawn: seq<Component>, ac: Value, snap: Snapshot, b: nat)
    requires Render(drawn, snap, ac).Some?
  {
    b < |Render(drawn, snap, ac).value.objects| && Render(drawn, snap, ac).value.objects[b].hasDep
  }

  lemma HeldIsNotHanded(app: seq<Component>, drawn: seq<Component>, ac: Value, before: Snapshot, stuck: set<nat>, b: nat)
    requires OwnNames(app, stuck) && SameGraph(app, drawn) && b in stuck && b < |Nodes(app)|
    requires Render(drawn, before, ac).Some? && forall i :: i in stuck ==> HeldAt(drawn, ac, before, i)
    ensures KeyOf(Nodes(app)[b].content) !in HandedKeys(Render(drawn, before, ac).value)
  {
    var r := Render(drawn, before, ac).value;
    DrawnIsGated(app, drawn, ac, before, b);
    forall i: nat | i < |r.objects| && !r.objects[i].hasDep ensures KeyOf(r.objects[i].content) != KeyOf(Nodes(app)[b].content) {
      DrawnIsGated(app, drawn, ac, before, i);
      assert !HeldAt(drawn, ac, before, i);
    }
  }

  /** While the object another one waits for is absent, the other one is held back. */
  lemma HeldWhileSourceAbsent(app: seq<Component>, drawn: seq<Component>, ac: Value, before: Snapshot, a: nat, b: nat)
    requires SameGraph(app, drawn) && a < |Nodes(app)| && b < |Nodes(app)|
    requires Edge(app, a, b) && Absent(app, before, a)
    requires Render(drawn, before, ac).Some?
    ensures HeldAt(drawn, ac, before, b)
  {
    DrawnIsGated(app, drawn, ac, before, b);
    var n, sources := Nodes(drawn)[b], SourcesOf(app);
    var k :| 0 <= k < |n.inputs| && Feeds(app, a, n.inputs[k]);
    RenderSucceedsExactlyWhen(drawn, before, ac);
    assert n in Nodes(drawn);
    UnreadyOrHidden(n, sources, before, ac, k);
  }

  /** An input whose guarded source is absent is unready, or it cannot be read; then an earlier input is unready. */
  lemma UnreadyOrHidden(n: Node, sources: Sources, snap: Snapshot, ac: Value, k: nat)
    requires k < |n.inputs| && Named(n.inputs[k]) && n.inputs[k].outputName in sources
    requires Guarded(sources[n.inputs[k].outputName]) && sources[n.inputs[k].outputName].obj !in snap.objects
    requires !SomeStops(n.inputs, sources, n.content, snap, ac)
    ensures HasUnreadyInput(n, sources, snap, ac)
  {
    var s := sources[n.inputs[k].outputName];
    if s.obj in snap.unreadable {
      assert FaultyAt(n.inputs, k, sources, n.content, snap, ac);
      assert !StopsAt(n.inputs, k, sources, n.content, snap, ac);
    } else {
      assert GetDataInput(s, snap, ac, false) == NotReady(ObjectNotFound);
      assert UnreadyAt(n.inputs, k, sources, n.content, snap, ac);
    }
  }

  lemma StuckInRun(app: seq<Component>, run: Run, t: nat, stuck: set<nat>)
    requires OwnNames(app, stuck) && SelfFed(app, stuck)
    requires OwnRun(app, run) && t < |run.completed| && AllAbsent(app, run.snaps[t], stuck)
    ensures AllAbsent(app, run.snaps[t + 1], stuck)
  {
    assert GainsAt(app, run, t);
    StuckForOneRound(app, run.drawn[t], run.acs[t], run.snaps[t], run.snaps[t + 1], stuck);
  }

  lemma {:induction false} StuckForEver(app: seq<Component>, run: Run, t: nat, stuck: set<nat>)
    requires OwnNames(app, stuck) && SelfFed(app, stuck)
    requires OwnRun(app, run) && t < |run.snaps| && AllAbsent(app, run.snaps[0], stuck)
    ensures AllAbsent(app, run.snaps[t], stuck)
  {
    if t > 0 {
      StuckForEver(app, run, t - 1, stuck);
      StuckInRun(app, run, t - 1, stuck);
    }
  }

  lemma CycleFeedsItself(app: seq<Component>, cycle: seq<nat>, i: nat) returns (a: nat)
    requires IsCycle(app, cycle) && i < |cycle|
    ensures a in cycle && a < |Nodes(app)| && cycle[i] < |Nodes(app)| && Edge(app, a, cycle[i])
  {
    var j := if i == 0 then |cycle| - 1 else i;
    a := cycle[j - 1];
    assert Edge(app, cycle[j - 1], cycle[j - 1 + 1]);
  }

  lemma TailIsFed(app: seq<Component>, tail: seq<nat>, i: nat) returns (a: nat)
    requires IsChain(app, tail) && 0 < i < |tail|
    ensures a in tail && a < |Nodes(app)| && tail[i] < |Nodes(app)| && Edge(app, a, tail[i])
  {
    a := tail[i - 1];
    assert Edge(app, tail[i - 1], tail[i - 1 + 1]);
  }

  lemma CycleWithTailIsSelfFed(app: seq<Component>, cycle: seq<nat>, tail: seq<nat>)
    requires IsCycle(app, cycle) && IsChain(app, tail) && tail[0] == cycle[0]
    ensures SelfFed(app, Members(cycle) + Members(tail))
  {
    var stuck := Members(cycle) + Members(tail);
    assert cycle[0] in Members(cycle);
    forall b | b in stuck ensures FedFrom(app, stuck, b) {
      var a;
      if b in Members(cycle) {
        var i :| 0 <= i < |cycle| && cycle[i] == b;
        a := CycleFeedsItself(app, cycle, i);
      } else {
        var i :| 0 <= i < |tail| && tail[i] == b;
        a := TailIsFed(app, tail, i);
      }
      assert a in stuck;
    }
  }

  /** Nothing on a cycle, or downstream of one, is ever applied: if none of it exists at the start of a run in which
      nobody else creates it, none of it exists at any later point, in completed rounds and failed ones, whether or not
      anybody attends to the sources, and whatever its own inputs are declared to fill. */
  lemma CyclesNeverStart(app: seq<Component>, run: Run, t: nat, cycle: seq<nat>, tail: seq<nat>)
    requires IsCycle(app, cycle) && IsChain(app, tail) && tail[0] == cycle[0]
    requires OwnNames(app, Members(cycle) + Members(tail))
    requires OwnRun(app, run) && t < |run.snaps|
    requires AllAbsent(app, run.snaps[0], Members(cycle) + Members(tail))
    ensures AllAbsent(app, run.snaps[t], Members(cycle) + Members(tail))
  {
    CycleWithTailIsSelfFed(app, cycle, tail);
    StuckForEver(app, run, t, Members(cycle) + Members(tail));
  }

  lemma DistinctAreOwn(app: seq<Component>, stuck: set<nat>)
    requires KeepsKeys(app) && DistinctKeys(app)
    ensures OwnNames(app, stuck)
  {
    forall i: nat, b: nat | i < |Nodes(app)| && b < |Nodes(app)| && i != b
      ensures KeyOf(Nodes(app)[i].content) != KeyOf(Nodes(app)[b].content)
    {
      if i > b { assert KeyOf(Nodes(app)[b].content) != KeyOf(Nodes(app)[i].content); }
    }
  }

  /** Put together: of objects with keys of their own, started from nothing and attended to, an application is complete
      after as many completed rounds as it has objects exactly when its graph is acyclic. */
  lemma FinishesExactlyWhenAcyclic(app: seq<Component>, run: Run)
    requires SparingRun(app, run) && OwnRun(app, run) && Attended(app, run) && KeepsKeys(app) && DistinctKeys(app)
    requires Present(app, run.snaps[0]) == {}
    requires Completed(run.completed) >= |Nodes(app)|
    ensures KeysOf(Nodes(app)) <= run.snaps[|run.snaps| - 1].objects.Keys <==> Acyclic(app)
  {
    if Acyclic(app) {
      AcyclicApplicationsFinish(app, run);
    } else {
      var cycle :| IsCycle(app, cycle);
      var last := |run.snaps| - 1;
      forall b | b in Members(cycle) + Members([cycle[0]]) ensures b < |Nodes(app)| && Absent(app, run.snaps[0], b) {
        AbsentIsNotPresent(app, run.snaps[0], b);
      }
      DistinctAreOwn(app, Members(cycle) + Members([cycle[0]]));
      CyclesNeverStart(app, run, last, cycle, [cycle[0]]);
      assert cycle[0] in Members(cycle);
      AbsentIsNotPresent(app, run.snaps[last], cycle[0]);
      assert KeyOf(Nodes(app)[cycle[0]].content) in KeysOf(Nodes(app));
    }
  }

  // ---------- sources nothing waits for ----------

  /** An output without field path and condition is ready whatever the cluster holds; every other one is not
      ready in the empty cluster. */
  lemma UnguardedIsAlwaysReady(s: Source, ac: Value)
    ensures (forall snap :: GetDataInput(s, snap, ac, false).Ready?) <==> !Guarded(s)
  {
    if Guarded(s) {
      assert !GetDataInput(s, Snapshot(map[], {}), ac, false).Ready?;
    }
  }

  /** Two objects that take values from one another. */
  predicate Exchange(app: seq<Component>, a: nat, b: nat)
    requires a < |Nodes(app)| && b < |Nodes(app)|
  {
    && (exists k :: 0 <= k < |Nodes(app)[b].inputs| && Consumes(app, a, Nodes(app)[b].inputs[k]))
    && (exists k :: 0 <= k < |Nodes(app)[a].inputs| && Consumes(app, b, Nodes(app)[a].inputs[k]))
  }

  function Plain(name: string): Value {
    Object(map["apiVersion" := Text("v1"), "kind" := Text("Kind"), "metadata" := Object(map["name" := Text(name)])])
  }

  /** A workload that declares an output without field path and condition, and takes the value of another. */
  function Partner(name: string, output: string, input: string): Component {
    Component(Node(Plain(name), [DataInput(input, [["spec"]], [])], [DataOutput(output, [], [])]), [])
  }

  function Partners(): seq<Component> {
    [Partner("a", "x", "y"), Partner("b", "y", "x")]
  }

  lemma PlainKey(name: string)
    ensures KeyOf(Plain(name)) == Key("v1", "Kind", name)
  {
    assert NAME[1..] == ["name"] && API_VERSION[1..] == [] && KIND[1..] == [] && ["name"][1..] == [];
  }

  lemma PartnersGraph()
    ensures Nodes(Partners()) == [Partners()[0].workload, Partners()[1].workload]
    ensures SourcesOf(Partners()) == map["x" := Source(Key("v1", "Kind", "a"), [], []), "y" := Source(Key("v1", "Kind", "b"), [], [])]
  {
    var a, b := Partner("a", "x", "y"), Partner("b", "y", "x");
    PlainKey("a");
    PlainKey("b");
    assert Partners()[1..] == [b] && [b][1..] == [] && [a.workload][1..] == [] && [b.workload][1..] == [];
    assert a.workload.outputs[1..] == [] && b.workload.outputs[1..] == [];
    assert Nodes([b]) == [b.workload];
    var one := AddComponents(map[], [a]);
    assert AddNodes(map[], [a.workload]) == map["x" := Source(Key("v1", "Kind", "a"), [], [])];
    assert AddNodes(AddNodes(map[], [a.workload]), [b.workload])
        == map["x" := Source(Key("v1", "Kind", "a"), [], []), "y" := Source(Key("v1", "Kind", "b"), [], [])];
  }

  /** A value put into a field of its own. */
  lemma SpecIsFilled(name: string, val: Value)
    requires val == Null
    ensures FillAll(Plain(name), [["spec"]], val).Some?
  {
    var paths: seq<Path> := [["spec"]];
    assert paths[1..] == [] && paths[0][1..] == [];
    assert Put(Child(Plain(name), "spec"), [], val) == Some(val);
  }

  lemma PartnerIsFilled(name: string, output: string, input: string, snap: Snapshot, ac: Value)
    requires input == "x" || input == "y"
    ensures var n := Partner(name, output, input).workload;
            var r := HandleInputs(n.inputs, SourcesOf(Partners()), n.content, snap, ac);
            r.Filled? && KeyOf(r.obj) == KeyOf(n.content)
  {
    PartnersGraph();
    var n := Partner(name, output, input).workload;
    assert Named(n.inputs[0]) by { assert !IsSpace(n.inputs[0].outputName[0]); }
    assert GetDataInput(SourcesOf(Partners())[input], snap, ac, false) == Ready(Null);
    assert n.inputs[1..] == [];
    SpecIsFilled(name, Null);
    assert KeepsKey(n.inputs);
    GatedKeeps(n.inputs, SourcesOf(Partners()), n.content, snap, ac, KEY_PATHS);
    SameKey(HandleInputs(n.inputs, SourcesOf(Partners()), n.content, snap, ac).obj, n.content);
  }

  lemma TwoGates(a: Node, b: Node, sources: Sources, snap: Snapshot, ac: Value, g: Gate, h: Gate)
    requires GateNode(a, sources, snap, ac) == Some(g) && GateNode(b, sources, snap, ac) == Some(h)
    ensures GateNodes(Rendering([], []), [a, b], sources, snap, ac) == Some(Rendering([g.obj, h.obj], g.deps + h.deps))
  {
    var none := Rendering([], []);
    var nodes := [a, b];
    assert nodes[1..] == [b] && [b][1..] == [];
    assert Extend(Extend(none, g), h) == Rendering([g.obj, h.obj], g.deps + h.deps);
    assert GateNodes(Extend(none, g), [b], sources, snap, ac) == GateNodes(Extend(Extend(none, g), h), [b][1..], sources, snap, ac);
  }

  lemma BothHanded(nodes: seq<Node>, r: Rendering)
    requires |nodes| == |r.objects| == 2
    requires forall i :: 0 <= i < 2 ==> !r.objects[i].hasDep && KeyOf(r.objects[i].content) == KeyOf(nodes[i].content)
    ensures HandedKeys(r) == KeysOf(nodes)
  {
    assert KeyOf(r.objects[0].content) == KeyOf(nodes[0].content) && KeyOf(r.objects[1].content) == KeyOf(nodes[1].content);
  }

  lemma PartnersRender(snap: Snapshot, ac: Value)
    ensures var r := Render(Partners(), snap, ac); r.Some? && HandedKeys(r.value) == KeysOf(Nodes(Partners()))
  {
    var nodes, sources := Nodes(Partners()), SourcesOf(Partners());
    PartnersGraph();
    PartnerIsFilled("a", "x", "y", snap, ac);
    PartnerIsFilled("b", "y", "x", snap, ac);
    var g, h := GateNode(nodes[0], sources, snap, ac).value, GateNode(nodes[1], sources, snap, ac).value;
    TwoGates(nodes[0], nodes[1], sources, snap, ac, g, h);
    BothHanded(nodes, Rendering([g.obj, h.obj], g.deps + h.deps));
  }

  lemma PartnersExchange()
    ensures |Nodes(Partners())| == 2 && Exchange(Partners(), 0, 1)
  {
    PartnersGraph();
    PlainKey("a");
    PlainKey("b");
    var app := Partners();
    var i, j := Nodes(app)[1].inputs[0], Nodes(app)[0].inputs[0];
    assert Named(i) by { assert !IsSpace(i.outputName[0]); }
    assert Named(j) by { assert !IsSpace(j.outputName[0]); }
    assert Consumes(app, 0, i) && Consumes(app, 1, j);
  }

  lemma CycleHasEdge(app: seq<Component>, p: seq<nat>)
    requires IsCycle(app, p)
    ensures Edge(app, p[0], p[1])
  {
    assert Edge(app, p[0], p[0 + 1]);
  }

  lemma NoEdgesNoCycles(app: seq<Component>)
    requires forall a, b :: 0 <= a < |Nodes(app)| && 0 <= b < |Nodes(app)| ==> !Edge(app, a, b)
    ensures Acyclic(app)
  {
    forall p ensures !IsCycle(app, p) {
      if IsCycle(app, p) { CycleHasEdge(app, p); }
    }
  }

  lemma PartnersWaitForNobody()
    ensures Acyclic(Partners()) && KeepsKeys(Partners())
  {
    PartnersGraph();
    assert forall name :: name in SourcesOf(Partners()) ==> !Guarded(SourcesOf(Partners())[name]);
    NoEdgesNoCycles(Partners());
    assert Avoids([["spec"]], KEY_PATHS);
  }

  lemma EverythingAppears(app: seq<Component>, ac: Value, empty: Snapshot, full: Snapshot)
    requires Render(app, empty, ac).Some? && HandedKeys(Render(app, empty, ac).value) == KeysOf(Nodes(app))
    requires empty.objects == map[] && full.objects.Keys == KeysOf(Nodes(app))
    ensures Keeps(app, app, ac, empty, full, true) && Gains(app, app, ac, empty, full)
  {
  }

  /** A round that starts from nothing and hands over every object may leave them all there. */
  lemma FullRound(app: seq<Component>, ac: Value) returns (run: Run)
    requires KeepsKeys(app)
    requires var r := Render(app, Snapshot(map[], {}), ac); r.Some? && HandedKeys(r.value) == KeysOf(Nodes(app))
    ensures SparingRun(app, run) && OwnRun(app, run) && |run.completed| == 1 && Present(app, run.snaps[0]) == {}
    ensures KeysOf(Nodes(app)) <= run.snaps[1].objects.Keys
  {
    var empty := Snapshot(map[], {});
    var full := Snapshot(map key | key in KeysOf(Nodes(app)) :: Null, {});
    run := Run([empty, full], [app], [ac], [true]);
    EverythingAppears(app, ac, empty, full);
    forall t: nat ensures KeepsAt(app, run, t) && GainsAt(app, run, t) {}
  }

  /** The guard on the edges is what makes the difference: two objects that take values from one another, from
      unguarded outputs, are both there after a single round. */
  lemma UnguardedExchangeFinishes(ac: Value) returns (run: Run)
    ensures var app := Partners();
            && |Nodes(app)| == 2 && Exchange(app, 0, 1) && Acyclic(app) && KeepsKeys(app)
            && SparingRun(app, run) && OwnRun(app, run) && |run.completed| == 1 && Present(app, run.snaps[0]) == {}
            && KeysOf(Nodes(app)) <= run.snaps[1].objects.Keys
  {
    var app := Partners();
    PartnersExchange();
    PartnersWaitForNobody();
    PartnersRender(Snapshot(map[], {}), ac);
    run := FullRound(app, ac);
  }
}
