/** Render and handleDependency as the controller runs them: a graph and rendered objects updated in place. */
module DependencyRender {
  import opened FieldPaths
  import opened Kube
  import opened Headers
  import opened Dependencies

  /** dag.go */
  class Dag {
    var sources: Sources

    constructor ()
      ensures sources == map[]
    {
      sources := map[];
    }

    method AddSource(name: string, source: Source)
      modifies this
      ensures sources == old(sources)[name := source]
    {
      sources := sources[name := source];
    }
  }

  /** A workload or trait on its way to the applicator. */
  class RenderedObject {
    var content: Value
    var hasDep: bool

    constructor (n: Node)
      ensures content == n.content && !hasDep
    {
      content := n.content;
      hasDep := false;
    }

    ghost predicate Matches(g: Gated)
      reads this
    {
      content == g.content && hasDep == g.hasDep
    }
  }

  method AddDataOutputs(dag: Dag, outputs: seq<DataOutput>, key: Key)
    modifies dag
    ensures dag.sources == AddOutputs(old(dag.sources), key, outputs)
  {
    for i := 0 to |outputs|
      invariant AddOutputs(old(dag.sources), key, outputs) == AddOutputs(dag.sources, key, outputs[i..])
    {
      assert outputs[i..][1..] == outputs[i + 1..];
      dag.AddSource(outputs[i].name, Source(key, outputs[i].fieldPath, outputs[i].conditions));
    }
  }

  method FillValue(o: RenderedObject, paths: seq<Path>, val: Value) returns (ok: bool)
    modifies o`content
    ensures match FillAll(old(o.content), paths, val)
            case None => !ok
            case Some(filled) => ok && o.content == filled
  {
    for i := 0 to |paths|
      invariant FillAll(old(o.content), paths, val) == FillAll(o.content, paths[i..], val)
    {
      assert paths[i..][1..] == paths[i + 1..];
      var toSet := val;
      if val.List? {
        match Get(o.content, paths[i]) {
          case NotFound => toSet := List([] + val.items);
          case NotAnObject => return false;
          case Found(raw) =>
            if !raw.List? { return false; }
            toSet := List(raw.items + val.items);
        }
      }
      assert [] + (if val.List? then val.items else []) == (if val.List? then val.items else []);
      var next := Set(o.content, paths[i], toSet);
      if next.None? {
        return false;
      }
      o.content := next.value;
    }
    return true;
  }

  datatype InputsResult = NoneUnready | OneUnready(dep: Unsatisfied) | Error

  ghost predicate Reports(r: InputsResult, content: Value, outcome: Outcome) {
    match outcome
    case Filled(filled) => r == NoneUnready && content == filled
    case Held(left, dep) => r == OneUnready(dep) && content == left
    case Broken => r == Error
  }

  method HandleDataInput(inputs: seq<DataInput>, dag: Dag, o: RenderedObject, snap: Snapshot, ac: Value)
    returns (r: InputsResult)
    modifies o`content
    ensures Reports(r, o.content, HandleInputs(inputs, dag.sources, old(o.content), snap, ac))
  {
    for i := 0 to |inputs|
      invariant HandleInputs(inputs, dag.sources, old(o.content), snap, ac)
             == HandleInputs(inputs[i..], dag.sources, o.content, snap, ac)
    {
      var input := inputs[i];
      assert inputs[i..][1..] == inputs[i + 1..];
      if Named(input) {
        if input.outputName !in dag.sources {
          return Error;
        }
        var s := dag.sources[input.outputName];
        match GetDataInput(s, snap, ac, false) {
          case Failed => return Error;
          case NotReady(reason) =>
            return OneUnready(Unsatisfied(s.obj, s.fieldPath, KeyOf(o.content), input.toFieldPaths, reason));
          case Ready(val) =>
            var ok := FillValue(o, input.toFieldPaths, val);
            if !ok {
              return Error;
            }
        }
      }
      if input.conditions != [] {
        if input.outputName !in dag.sources {
          return Error;
        }
        var s := dag.sources[input.outputName];
        match GetDataInput(Source(KeyOf(o.content), [], input.conditions), snap, ac, true) {
          case Failed => return Error;
          case NotReady(reason) =>
            return OneUnready(Unsatisfied(s.obj, s.fieldPath, KeyOf(o.content), input.toFieldPaths, reason));
          case Ready(_) =>
        }
      }
    }
    return NoneUnready;
  }

  /** The gate for one object. */
  method GateObject(n: Node, dag: Dag, o: RenderedObject, snap: Snapshot, ac: Value)
    returns (ok: bool, deps: seq<Unsatisfied>)
    requires o.content == n.content && !o.hasDep
    modifies o
    ensures ok <==> GateNode(n, dag.sources, snap, ac).Some?
    ensures ok ==> var g := GateNode(n, dag.sources, snap, ac).value; o.Matches(g.obj) && deps == g.deps
  {
    var r := HandleDataInput(n.inputs, dag, o, snap, ac);
    match r {
      case Error => return false, [];
      case OneUnready(dep) =>
        o.hasDep := true;
        return true, [dep];
      case NoneUnready => return true, [];
    }
  }

  ghost predicate Untouched(objects: seq<RenderedObject>, nodes: seq<Node>)
    reads objects
  {
    && |objects| == |nodes|
    && (forall i, j :: 0 <= i < j < |objects| ==> objects[i] != objects[j])
    && (forall i :: 0 <= i < |nodes| ==> objects[i].content == nodes[i].content && !objects[i].hasDep)
  }

  ghost predicate AllMatch(objects: seq<RenderedObject>, gs: seq<Gated>)
    reads objects
  {
    |objects| == |gs| && forall i :: 0 <= i < |gs| ==> objects[i].Matches(gs[i])
  }

  /** handleDependency, over any run of objects: a component's workload and then its traits. */
  method HandleDependency(nodes: seq<Node>, dag: Dag, objects: seq<RenderedObject>, snap: Snapshot, ac: Value)
    returns (ok: bool, unsatisfied: seq<Unsatisfied>)
    requires Untouched(objects, nodes)
    modifies objects
    ensures ok <==> GateNodes(Rendering([], []), nodes, dag.sources, snap, ac).Some?
    ensures ok ==> var r := GateNodes(Rendering([], []), nodes, dag.sources, snap, ac).value;
                   AllMatch(objects, r.objects) && unsatisfied == r.unsatisfied
  {
    unsatisfied := [];
    ghost var done := Rendering([], []);
    for i := 0 to |nodes|
      invariant GateNodes(Rendering([], []), nodes, dag.sources, snap, ac)
             == GateNodes(done, nodes[i..], dag.sources, snap, ac)
      invariant |done.objects| == i && unsatisfied == done.unsatisfied
      invariant forall j :: 0 <= j < i ==> objects[j].Matches(done.objects[j])
      invariant forall j :: i <= j < |nodes| ==> objects[j].content == nodes[j].content && !objects[j].hasDep
    {
      var n := nodes[i];
      assert nodes[i..][0] == n && nodes[i..][1..] == nodes[i + 1..];
      var deps;
      ok, deps := GateObject(n, dag, objects[i], snap, ac);
      if !ok {
        return false, [];
      }
      unsatisfied := unsatisfied + deps;
      done := Extend(done, GateNode(n, dag.sources, snap, ac).value);
    }
    return true, unsatisfied;
  }

  lemma UntouchedTogether(a: seq<RenderedObject>, na: seq<Node>, b: seq<RenderedObject>, nb: seq<Node>)
    requires Untouched(a, na) && Untouched(b, nb)
    requires forall o :: o in b ==> o !in a
    ensures Untouched(a + b, na + nb)
  {
    forall i, j | 0 <= i < j < |a + b| ensures (a + b)[i] != (a + b)[j] {
      if i < |a| <= j { assert (a + b)[j] in b; }
    }
  }

  method RenderTraits(traits: seq<Node>, dag: Dag) returns (objects: seq<RenderedObject>)
    modifies dag
    ensures dag.sources == AddNodes(old(dag.sources), traits)
    ensures fresh(objects) && Untouched(objects, traits)
  {
    objects := [];
    for j := 0 to |traits|
      invariant AddNodes(old(dag.sources), traits) == AddNodes(dag.sources, traits[j..])
      invariant fresh(objects) && Untouched(objects, traits[..j])
    {
      assert traits[j..][0] == traits[j] && traits[j..][1..] == traits[j + 1..];
      var t := new RenderedObject(traits[j]);
      UntouchedTogether(objects, traits[..j], [t], [traits[j]]);
      assert traits[..j] + [traits[j]] == traits[..j + 1];
      objects := objects + [t];
      AddDataOutputs(dag, traits[j].outputs, KeyOf(traits[j].content));
    }
    assert traits[..|traits|] == traits;
  }

  /** renderComponent: the traits' outputs are registered first, the workload's last. */
  method RenderComponent(c: Component, dag: Dag) returns (objects: seq<RenderedObject>)
    modifies dag
    ensures dag.sources == AddNodes(AddNodes(old(dag.sources), c.traits), [c.workload])
    ensures fresh(objects) && Untouched(objects, [c.workload] + c.traits)
  {
    var traits := RenderTraits(c.traits, dag);
    var w := new RenderedObject(c.workload);
    ghost var before := dag.sources;
    AddDataOutputs(dag, c.workload.outputs, KeyOf(c.workload.content));
    assert [c.workload][1..] == [];
    assert AddNodes(before, [c.workload]) == AddNodes(dag.sources, []);
    UntouchedTogether([w], [c.workload], traits, c.traits);
    objects := [w] + traits;
  }

  /** One turn of the first loop of Render. */
  method RenderNext(c: Component, dag: Dag, done: seq<RenderedObject>, ghost nodes: seq<Node>) returns (own: seq<RenderedObject>)
    requires Untouched(done, nodes)
    modifies dag
    ensures dag.sources == AddNodes(AddNodes(old(dag.sources), c.traits), [c.workload])
    ensures fresh(own) && Untouched(done + own, nodes + ([c.workload] + c.traits))
  {
    own := RenderComponent(c, dag);
    assert forall o :: o in own ==> o !in done;
    UntouchedTogether(done, nodes, own, [c.workload] + c.traits);
  }

  /** The first i components have registered these sources and contributed these nodes. */
  ghost predicate RenderedSoFar(app: seq<Component>, i: nat, sources: Sources, nodes: seq<Node>) {
    && i <= |app|
    && SourcesOf(app) == AddComponents(sources, app[i..])
    && Nodes(app) == nodes + Nodes(app[i..])
  }

  lemma RenderedNone(app: seq<Component>)
    ensures RenderedSoFar(app, 0, map[], [])
  {
    assert app[0..] == app;
  }

  lemma RenderedOneMore(app: seq<Component>, i: nat, sources: Sources, nodes: seq<Node>)
    requires i < |app| && RenderedSoFar(app, i, sources, nodes)
    ensures RenderedSoFar(app, i + 1, AddNodes(AddNodes(sources, app[i].traits), [app[i].workload]),
                          nodes + ([app[i].workload] + app[i].traits))
  {
    assert app[i..][0] == app[i] && app[i..][1..] == app[i + 1..];
  }

  lemma RenderedEverything(app: seq<Component>, sources: Sources, nodes: seq<Node>)
    requires RenderedSoFar(app, |app|, sources, nodes)
    ensures sources == SourcesOf(app) && nodes == Nodes(app)
  {
    assert app[|app|..] == [];
  }

  /** The first loop of Render: every object, and every declared output. */
  method RenderComponents(app: seq<Component>) returns (dag: Dag, objects: seq<RenderedObject>)
    ensures dag.sources == SourcesOf(app) && fresh(objects) && Untouched(objects, Nodes(app))
  {
    dag := new Dag();
    objects := [];
    ghost var nodes: seq<Node> := [];
    RenderedNone(app);
    for i := 0 to |app|
      invariant RenderedSoFar(app, i, dag.sources, nodes)
      invariant fresh(dag) && fresh(objects) && Untouched(objects, nodes)
    {
      RenderedOneMore(app, i, dag.sources, nodes);
      var own := RenderNext(app[i], dag, objects, nodes);
      objects := objects + own;
      nodes := nodes + ([app[i].workload] + app[i].traits);
    }
    RenderedEverything(app, dag.sources, nodes);
  }

  method Render(app: seq<Component>, snap: Snapshot, ac: Value)
    returns (ok: bool, objects: seq<RenderedObject>, unsatisfied: seq<Unsatisfied>)
    ensures ok <==> Dependencies.Render(app, snap, ac).Some?
    ensures ok ==> var r := Dependencies.Render(app, snap, ac).value;
                   AllMatch(objects, r.objects) && unsatisfied == r.unsatisfied
    ensures fresh(objects)
  {
    var dag;
    dag, objects := RenderComponents(app);
    ok, unsatisfied := HandleDependency(Nodes(app), dag, objects, snap, ac);
  }
}
