/** Data dependencies between the objects of one application: the gate render.go puts in front of every
    workload and trait. */
module Dependencies {
  import opened Wrappers
  import opened FieldPaths
  import opened Kube
  import opened Headers

  // ---------- inputs, outputs and the dependency graph ----------

  datatype Operator = Equal | NotEqual | NotEmpty | OtherOperator

  datatype Condition = Condition(op: Operator, value: string, valueFrom: Path, fieldPath: Path)

  datatype DataOutput = DataOutput(name: string, fieldPath: Path, conditions: seq<Condition>)

  datatype DataInput = DataInput(outputName: string, toFieldPaths: seq<Path>, conditions: seq<Condition>)

  /** A rendered workload or trait before its inputs are filled in. */
  datatype Node = Node(content: Value, inputs: seq<DataInput>, outputs: seq<DataOutput>)

  datatype Component = Component(workload: Node, traits: seq<Node>)

  datatype Source = Source(obj: Key, fieldPath: Path, conditions: seq<Condition>)

  type Sources = map<string, Source>

  /** What the API server answers during one Render: the objects, and those it fails to return. */
  datatype Snapshot = Snapshot(objects: map<Key, Value>, unreadable: set<Key>)

  function AddOutputs(sources: Sources, key: Key, outputs: seq<DataOutput>): Sources
    decreases |outputs|
  {
    if outputs == [] then sources
    else
      AddOutputs(sources[outputs[0].name := Source(key, outputs[0].fieldPath, outputs[0].conditions)],
                 key, outputs[1..])
  }

  function AddNodes(sources: Sources, nodes: seq<Node>): Sources
    decreases |nodes|
  {
    if nodes == [] then sources
    else AddNodes(AddOutputs(sources, KeyOf(nodes[0].content), nodes[0].outputs), nodes[1..])
  }

  /** Sources are registered traits first: a trait's when it is rendered, the workload's at the end. */
  function AddComponents(sources: Sources, app: seq<Component>): Sources
    decreases |app|
  {
    if app == [] then sources
    else AddComponents(AddNodes(AddNodes(sources, app[0].traits), [app[0].workload]), app[1..])
  }

  function SourcesOf(app: seq<Component>): Sources {
    AddComponents(map[], app)
  }

  /** Gating and applying go the other way: each workload, then its traits. */
  function Nodes(app: seq<Component>): seq<Node> {
    if app == [] then [] else [app[0].workload] + app[0].traits + Nodes(app[1..])
  }

  // ---------- which declaration counts ----------

  datatype Declaration = Declaration(name: string, source: Source)

  function DeclaredBy(key: Key, outputs: seq<DataOutput>): seq<Declaration> {
    seq(|outputs|, i requires 0 <= i < |outputs| =>
      Declaration(outputs[i].name, Source(key, outputs[i].fieldPath, outputs[i].conditions)))
  }

  function DeclaredByAll(nodes: seq<Node>): seq<Declaration> {
    if nodes == [] then [] else DeclaredBy(KeyOf(nodes[0].content), nodes[0].outputs) + DeclaredByAll(nodes[1..])
  }

  /** Every declared output, in the order of rendering: component by component, traits before the workload. */
  function Declarations(app: seq<Component>): seq<Declaration> {
    if app == [] then []
    else DeclaredByAll(app[0].traits) + DeclaredByAll([app[0].workload]) + Declarations(app[1..])
  }

  function Overlay(sources: Sources, ds: seq<Declaration>): Sources
    decreases |ds|
  {
    if ds == [] then sources else Overlay(sources[ds[0].name := ds[0].source], ds[1..])
  }

  lemma {:induction false} OverlayInTurn(sources: Sources, a: seq<Declaration>, b: seq<Declaration>)
    ensures Overlay(sources, a + b) == Overlay(Overlay(sources, a), b)
    decreases |a|
  {
    if a == [] {
      assert a + b == b;
    } else {
      assert (a + b)[1..] == a[1..] + b;
      OverlayInTurn(sources[a[0].name := a[0].source], a[1..], b);
    }
  }

  lemma {:induction false} OutputsOverlay(sources: Sources, key: Key, outputs: seq<DataOutput>)
    ensures AddOutputs(sources, key, outputs) == Overlay(sources, DeclaredBy(key, outputs))
    decreases |outputs|
  {
    if outputs != [] {
      var d := DeclaredBy(key, outputs);
      assert d[1..] == DeclaredBy(key, outputs[1..]);
      OutputsOverlay(sources[outputs[0].name := d[0].source], key, outputs[1..]);
    }
  }

  lemma {:induction false} NodesOverlay(sources: Sources, nodes: seq<Node>)
    ensures AddNodes(sources, nodes) == Overlay(sources, DeclaredByAll(nodes))
    decreases |nodes|
  {
    if nodes != [] {
      var key, outputs := KeyOf(nodes[0].content), nodes[0].outputs;
      OutputsOverlay(sources, key, outputs);
      NodesOverlay(AddOutputs(sources, key, outputs), nodes[1..]);
      OverlayInTurn(sources, DeclaredBy(key, outputs), DeclaredByAll(nodes[1..]));
    }
  }

  lemma {:induction false} ComponentsOverlay(sources: Sources, app: seq<Component>)
    ensures AddComponents(sources, app) == Overlay(sources, Declarations(app))
    decreases |app|
  {
    if app != [] {
      var a, b, rest := DeclaredByAll(app[0].traits), DeclaredByAll([app[0].workload]), Declarations(app[1..]);
      NodesOverlay(sources, app[0].traits);
      NodesOverlay(AddNodes(sources, app[0].traits), [app[0].workload]);
      ComponentsOverlay(AddNodes(AddNodes(sources, app[0].traits), [app[0].workload]), app[1..]);
      OverlayInTurn(sources, a, b);
      OverlayInTurn(sources, a + b, rest);
    }
  }

  /** Declaration i is the last one of its name. */
  predicate IsLast(ds: seq<Declaration>, i: nat) {
    i < |ds| && forall j :: i < j < |ds| ==> ds[j].name != ds[i].name
  }

  predicate Declares(ds: seq<Declaration>, name: string) {
    exists i :: 0 <= i < |ds| && ds[i].name == name
  }

  lemma {:induction false} OverlayKeepsLast(sources: Sources, ds: seq<Declaration>)
    ensures forall name :: name in Overlay(sources, ds) <==> name in sources || Declares(ds, name)
    ensures forall name :: name in sources && !Declares(ds, name) ==> Find(Overlay(sources, ds), name) == Some(sources[name])
    ensures forall i: nat :: IsLast(ds, i) ==> Find(Overlay(sources, ds), ds[i].name) == Some(ds[i].source)
    decreases |ds|
  {
    if ds != [] {
      var next, rest := sources[ds[0].name := ds[0].source], ds[1..];
      OverlayKeepsLast(next, rest);
      forall name ensures Declares(ds, name) <==> ds[0].name == name || Declares(rest, name) {
        if i :| 0 < i < |ds| && ds[i].name == name { assert rest[i - 1].name == name; }
        if i :| 0 <= i < |rest| && rest[i].name == name { assert ds[i + 1].name == name; }
      }
      forall i: nat | IsLast(ds, i) ensures Find(Overlay(sources, ds), ds[i].name) == Some(ds[i].source) {
        if i > 0 {
          assert forall j :: i - 1 < j < |rest| ==> rest[j] == ds[j + 1];
          assert IsLast(rest, i - 1);
        } else {
          assert forall j :: 0 <= j < |rest| ==> rest[j] == ds[j + 1];
        }
      }
    }
  }

  /** An output name stands for the last declaration of it in the application, and only declared names stand
      for anything. */
  lemma LastDeclarationCounts(app: seq<Component>)
    ensures forall name :: name in SourcesOf(app) <==> Declares(Declarations(app), name)
    ensures forall i: nat :: IsLast(Declarations(app), i) ==>
              Find(SourcesOf(app), Declarations(app)[i].name) == Some(Declarations(app)[i].source)
  {
    ComponentsOverlay(map[], app);
    OverlayKeepsLast(map[], Declarations(app));
  }

  // ---------- conditions ----------

  datatype Verdict = Met | Unmet(reason: Reason)

  datatype Reason =
    | NothingToCheck
    | NothingExpected
    | ValueDiffers(got: string, want: string)
    | ValueEqual(got: string)
    | ValueEmpty
    | FieldNotFound
    | ObjectNotFound

  function GetString(v: Value, p: Path): Option<string> {
    match Get(v, p)
    case Found(Text(s)) => Some(s)
    case _ => None
  }

  function CheckValue(m: Condition, obj: Value, val: Option<string>): Option<string> {
    if m.fieldPath != [] then GetString(obj, m.fieldPath) else val
  }

  function ExpectedValue(m: Condition, ac: Value): Option<string> {
    if m.value != "" then Some(m.value)
    else if m.valueFrom == [] then Some("")
    else GetString(ac, m.valueFrom)
  }

  function CheckConditions(conds: seq<Condition>, obj: Value, val: Option<string>, ac: Value): Verdict {
    if conds == [] then Met
    else
      var got := CheckValue(conds[0], obj, val);
      var want := ExpectedValue(conds[0], ac);
      if got.None? then Unmet(NothingToCheck)
      else if want.None? then Unmet(NothingExpected)
      else if conds[0].op.Equal? && want.value != got.value then Unmet(ValueDiffers(got.value, want.value))
      else if conds[0].op.NotEqual? && want.value == got.value then Unmet(ValueEqual(got.value))
      else if conds[0].op.NotEmpty? && got.value == "" then Unmet(ValueEmpty)
      else CheckConditions(conds[1..], obj, val, ac)
  }

  function MatchValue(conds: seq<Condition>, val: string, obj: Value, ac: Value): Verdict {
    if conds == [] then (if val == "" then Unmet(ValueEmpty) else Met)
    else CheckConditions(conds, obj, Some(val), ac)
  }

  /** The text a condition looks at: that of the field it names in the source object, or else the source's own. */
  predicate LooksAt(m: Condition, obj: Value, val: Option<string>, got: string) {
    if m.fieldPath == [] then val == Some(got) else Get(obj, m.fieldPath) == Found(Text(got))
  }

  /** The text it compares with: its own, or that of the application's field it names; with neither, the empty one. */
  predicate ComparesWith(m: Condition, ac: Value, want: string) {
    if m.value != "" then want == m.value
    else if m.valueFrom == [] then want == ""
    else Get(ac, m.valueFrom) == Found(Text(want))
  }

  predicate Accepts(op: Operator, got: string, want: string) {
    (op.Equal? ==> got == want) && (op.NotEqual? ==> got != want) && (op.NotEmpty? ==> got != "")
  }

  /** One condition on its own: both texts can be had and the operator accepts them. */
  ghost predicate Satisfied(m: Condition, obj: Value, val: Option<string>, ac: Value) {
    exists got, want :: LooksAt(m, obj, val, got) && ComparesWith(m, ac, want) && Accepts(m.op, got, want)
  }

  lemma TextsOf(m: Condition, obj: Value, val: Option<string>, ac: Value)
    ensures forall got :: LooksAt(m, obj, val, got) <==> CheckValue(m, obj, val) == Some(got)
    ensures forall want :: ComparesWith(m, ac, want) <==> ExpectedValue(m, ac) == Some(want)
  {
  }

  lemma FirstCondition(conds: seq<Condition>, obj: Value, val: Option<string>, ac: Value)
    requires conds != []
    ensures CheckConditions(conds, obj, val, ac).Met?
        <==> Satisfied(conds[0], obj, val, ac) && CheckConditions(conds[1..], obj, val, ac).Met?
  {
    var m := conds[0];
    TextsOf(m, obj, val, ac);
    var got, want := CheckValue(m, obj, val), ExpectedValue(m, ac);
    if got.Some? && want.Some? && Accepts(m.op, got.value, want.value) {
      assert LooksAt(m, obj, val, got.value) && ComparesWith(m, ac, want.value);
    }
  }

  ghost predicate AllSatisfied(conds: seq<Condition>, obj: Value, val: Option<string>, ac: Value) {
    forall m :: m in conds ==> Satisfied(m, obj, val, ac)
  }

  lemma {:induction false} ConditionsAreConjunction(conds: seq<Condition>, obj: Value, val: Option<string>, ac: Value)
    ensures CheckConditions(conds, obj, val, ac).Met? <==> AllSatisfied(conds, obj, val, ac)
  {
    if conds != [] {
      FirstCondition(conds, obj, val, ac);
      ConditionsAreConjunction(conds[1..], obj, val, ac);
      assert conds == [conds[0]] + conds[1..];
    }
  }

  // ---------- reading a source ----------

  datatype Reading = Ready(value: Value) | NotReady(reason: Reason) | Failed

  function GetDataInput(s: Source, snap: Snapshot, ac: Value, ignoreNotFound: bool): Reading {
    if s.fieldPath == [] && s.conditions == [] then Ready(Null)
    else if s.obj in snap.unreadable then Failed
    else if s.obj !in snap.objects then (if ignoreNotFound then Ready(Null) else NotReady(ObjectNotFound))
    else
      var obj := snap.objects[s.obj];
      match Get(obj, s.fieldPath)
      case NotFound => NotReady(FieldNotFound)
      case NotAnObject => Failed
      case Found(raw) =>
        var verdict := if raw.Text? then MatchValue(s.conditions, raw.text, obj, ac)
                       else CheckConditions(s.conditions, obj, None, ac);
        match verdict
        case Met => Ready(raw)
        case Unmet(reason) => NotReady(reason)
  }

  /** A string source is ready exactly when all its conditions hold of it, or, with no condition, when it
      is not empty. */
  lemma StringSourceReadiness(s: Source, snap: Snapshot, ac: Value, text: string)
    requires s.obj in snap.objects && s.obj !in snap.unreadable
    requires Get(snap.objects[s.obj], s.fieldPath) == Found(Text(text))
    ensures var reading := GetDataInput(s, snap, ac, false);
            && (reading.Ready? <==>
                  if s.conditions == [] then text != ""
                  else AllSatisfied(s.conditions, snap.objects[s.obj], Some(text), ac))
            && (reading.Ready? ==> reading.value == Text(text))
            && !reading.Failed?
  {
    ConditionsAreConjunction(s.conditions, snap.objects[s.obj], Some(text), ac);
  }

  /** A value passes if all conditions hold; with no condition, a text passes if it is not empty, and any other value
      does. */
  ghost predicate Passes(v: Value, conds: seq<Condition>, obj: Value, ac: Value) {
    if v.Text? && conds == [] then v.text != ""
    else AllSatisfied(conds, obj, if v.Text? then Some(v.text) else None, ac)
  }

  /** The source's object is there, its field is there with this value, and the value passes. */
  ghost predicate Delivers(s: Source, snap: Snapshot, ac: Value, v: Value) {
    && s.obj in snap.objects && Get(snap.objects[s.obj], s.fieldPath) == Found(v)
    && Passes(v, s.conditions, snap.objects[s.obj], ac)
  }

  /** A source that says something about its object: without a field path and a condition it counts as
      ready even while the object does not exist, and nothing waits for it. */
  predicate Guarded(s: Source) {
    s.fieldPath != [] || s.conditions != []
  }

  lemma VerdictExactly(v: Value, conds: seq<Condition>, obj: Value, ac: Value)
    ensures (if v.Text? then MatchValue(conds, v.text, obj, ac) else CheckConditions(conds, obj, None, ac)).Met?
        <==> Passes(v, conds, obj, ac)
  {
    ConditionsAreConjunction(conds, obj, if v.Text? then Some(v.text) else None, ac);
  }

  /** A guarded source hands on a value exactly when its object is there, its field is there with that value, and the
      value passes. It fails exactly when its object cannot be read, or is there with something that is no object on
      the way to the field; in particular a field that is not there yet is not ready. */
  lemma ReadyExactlyWhen(s: Source, snap: Snapshot, ac: Value)
    requires Guarded(s)
    ensures var r := GetDataInput(s, snap, ac, false);
            && (forall v :: r == Ready(v) <==> s.obj !in snap.unreadable && Delivers(s, snap, ac, v))
            && (r.Failed? <==> (s.obj in snap.unreadable || (s.obj in snap.objects && Get(snap.objects[s.obj], s.fieldPath).NotAnObject?)))
  {
    if s.obj in snap.objects {
      var obj := snap.objects[s.obj];
      var found := Get(obj, s.fieldPath);
      if found.Found? { VerdictExactly(found.value, s.conditions, obj, ac); }
    }
  }

  /** The conditions an input puts on its own object: ready while the object is not there, and otherwise exactly when
      they all hold of its fields. */
  lemma OwnReadyExactlyWhen(key: Key, conds: seq<Condition>, snap: Snapshot, ac: Value)
    requires conds != []
    ensures var r := GetDataInput(Source(key, [], conds), snap, ac, true);
            && (r.Ready? <==> key !in snap.unreadable && (key in snap.objects ==> AllSatisfied(conds, snap.objects[key], None, ac)))
            && (r.Failed? <==> key in snap.unreadable)
  {
    if key in snap.objects { VerdictExactly(Null, conds, snap.objects[key], ac); }
  }

  // ---------- handling the inputs of one object ----------

  datatype Unsatisfied = Unsatisfied(from: Key, fromPath: Path, to: Key, toPaths: seq<Path>, reason: Reason)

  /** An object that is held is held as the inputs before the unready one have filled it. */
  datatype Outcome = Filled(obj: Value) | Held(obj: Value, dep: Unsatisfied) | Broken

  predicate IsSpace(c: char) {
    c as int in {0x09, 0x0A, 0x0B, 0x0C, 0x0D, 0x20, 0x85, 0xA0, 0x1680, 0x2028, 0x2029, 0x202F, 0x205F, 0x3000}
    || 0x2000 <= c as int <= 0x200A
  }

  /** strings.TrimSpace leaves something */
  predicate Named(input: DataInput) {
    exists i :: 0 <= i < |input.outputName| && !IsSpace(input.outputName[i])
  }

  /** An input is nameless exactly when its output name consists of Unicode white space. */
  lemma NamelessExactlyWhen(input: DataInput)
    ensures !Named(input) <==> forall c :: c in input.outputName ==>
              9 <= c as int <= 13 || c == ' ' || c as int in {0x85, 0xA0, 0x1680, 0x202F, 0x205F, 0x3000}
              || 0x2000 <= c as int <= 0x200A || 0x2028 <= c as int <= 0x2029
  {
    forall i | 0 <= i < |input.outputName| ensures input.outputName[i] in input.outputName {}
  }

  function HandleSource(input: DataInput, sources: Sources, obj: Value, snap: Snapshot, ac: Value): Outcome {
    if input.outputName !in sources then Broken
    else
      var s := sources[input.outputName];
      match GetDataInput(s, snap, ac, false)
      case Failed => Broken
      case NotReady(reason) => Held(obj, Unsatisfied(s.obj, s.fieldPath, KeyOf(obj), input.toFieldPaths, reason))
      case Ready(val) =>
        var filled := FillAll(obj, input.toFieldPaths, val);
        if filled.None? then Broken else Filled(filled.value)
  }

  function HandleOwnConditions(input: DataInput, sources: Sources, obj: Value, snap: Snapshot, ac: Value): Outcome {
    if input.outputName !in sources then Broken
    else
      var s := sources[input.outputName];
      match GetDataInput(Source(KeyOf(obj), [], input.conditions), snap, ac, true)
      case Failed => Broken
      case NotReady(reason) => Held(obj, Unsatisfied(s.obj, s.fieldPath, KeyOf(obj), input.toFieldPaths, reason))
      case Ready(_) => Filled(obj)
  }

  function HandleInput(input: DataInput, sources: Sources, obj: Value, snap: Snapshot, ac: Value): Outcome {
    var first := if Named(input) then HandleSource(input, sources, obj, snap, ac) else Filled(obj);
    if first.Filled? && input.conditions != [] then HandleOwnConditions(input, sources, first.obj, snap, ac)
    else first
  }

  function HandleInputs(inputs: seq<DataInput>, sources: Sources, obj: Value, snap: Snapshot, ac: Value): Outcome
    decreases |inputs|
  {
    if inputs == [] then Filled(obj)
    else
      match HandleInput(inputs[0], sources, obj, snap, ac)
      case Filled(next) => HandleInputs(inputs[1..], sources, next, snap, ac)
      case stop => stop
  }

  // ---------- the same, one input at a time ----------

  /** What the source of an input says, if the input names one. */
  function SourceReading(input: DataInput, sources: Sources, snap: Snapshot, ac: Value): Reading {
    if !Named(input) then Ready(Null)
    else if input.outputName !in sources then Failed
    else GetDataInput(sources[input.outputName], snap, ac, false)
  }

  /** What the conditions an input puts on its own object say, if it puts any; the object goes by key. */
  function OwnReading(input: DataInput, sources: Sources, key: Key, snap: Snapshot, ac: Value): Reading {
    if input.conditions == [] then Ready(Null)
    else if input.outputName !in sources then Failed
    else GetDataInput(Source(key, [], input.conditions), snap, ac, true)
  }

  /** The object with the value of one input put in, if it can be had and fits. */
  function FillFrom(input: DataInput, sources: Sources, obj: Value, snap: Snapshot, ac: Value): Value {
    var r := SourceReading(input, sources, snap, ac);
    if Named(input) && r.Ready? && FillAll(obj, input.toFieldPaths, r.value).Some? then
      FillAll(obj, input.toFieldPaths, r.value).value
    else obj
  }

  /** The object with the values of the first k inputs put in. */
  function FilledThrough(inputs: seq<DataInput>, k: nat, sources: Sources, obj: Value, snap: Snapshot, ac: Value): Value
    requires k <= |inputs|
    decreases |inputs|
  {
    if k == 0 then obj
    else FilledThrough(inputs[1..], k - 1, sources, FillFrom(inputs[0], sources, obj, snap, ac), snap, ac)
  }

  /** Readiness of one input in the snapshot, for an object that goes by key by then. */
  predicate Unready(input: DataInput, sources: Sources, key: Key, snap: Snapshot, ac: Value) {
    SourceReading(input, sources, snap, ac).NotReady? || OwnReading(input, sources, key, snap, ac).NotReady?
  }

  /** The same, for the object as the inputs before have filled it. */
  predicate UnreadyFor(input: DataInput, sources: Sources, before: Value, snap: Snapshot, ac: Value) {
    Unready(input, sources, KeyOf(FillFrom(input, sources, before, snap, ac)), snap, ac)
  }

  /** An input that cannot be handled: its source is not declared, or cannot be read, or its value does not fit
      where it is to go; or its own object cannot be read. */
  predicate Faulty(input: DataInput, sources: Sources, before: Value, snap: Snapshot, ac: Value) {
    var source := SourceReading(input, sources, snap, ac);
    || source.Failed?
    || (Named(input) && source.Ready? && FillAll(before, input.toFieldPaths, source.value).None?)
    || (source.Ready? && OwnReading(input, sources, KeyOf(FillFrom(input, sources, before, snap, ac)), snap, ac).Failed?)
  }

  predicate UnreadyAt(inputs: seq<DataInput>, k: nat, sources: Sources, obj: Value, snap: Snapshot, ac: Value)
    requires k < |inputs|
  {
    UnreadyFor(inputs[k], sources, FilledThrough(inputs, k, sources, obj, snap, ac), snap, ac)
  }

  predicate FaultyAt(inputs: seq<DataInput>, k: nat, sources: Sources, obj: Value, snap: Snapshot, ac: Value)
    requires k < |inputs|
  {
    Faulty(inputs[k], sources, FilledThrough(inputs, k, sources, obj, snap, ac), snap, ac)
  }

  predicate SomeUnready(inputs: seq<DataInput>, sources: Sources, obj: Value, snap: Snapshot, ac: Value) {
    exists k :: 0 <= k < |inputs| && UnreadyAt(inputs, k, sources, obj, snap, ac)
  }

  lemma FirstOfRest(inputs: seq<DataInput>, k: nat, sources: Sources, obj: Value, snap: Snapshot, ac: Value)
    requires 0 < k < |inputs|
    ensures var next := FillFrom(inputs[0], sources, obj, snap, ac);
            && UnreadyAt(inputs, k, sources, obj, snap, ac) == UnreadyAt(inputs[1..], k - 1, sources, next, snap, ac)
            && FaultyAt(inputs, k, sources, obj, snap, ac) == FaultyAt(inputs[1..], k - 1, sources, next, snap, ac)
  {
    assert inputs[1..][k - 1] == inputs[k];
  }

  lemma UnreadyInRest(inputs: seq<DataInput>, sources: Sources, obj: Value, snap: Snapshot, ac: Value)
    requires inputs != []
    ensures SomeUnready(inputs[1..], sources, FillFrom(inputs[0], sources, obj, snap, ac), snap, ac) ==>
              SomeUnready(inputs, sources, obj, snap, ac)
  {
    var rest, next := inputs[1..], FillFrom(inputs[0], sources, obj, snap, ac);
    if k :| 0 <= k < |rest| && UnreadyAt(rest, k, sources, next, snap, ac) {
      FirstOfRest(inputs, k + 1, sources, obj, snap, ac);
      assert UnreadyAt(inputs, k + 1, sources, obj, snap, ac);
    }
  }

  lemma UnreadyFirstOrLater(inputs: seq<DataInput>, sources: Sources, obj: Value, snap: Snapshot, ac: Value)
    requires inputs != [] && SomeUnready(inputs, sources, obj, snap, ac)
    ensures UnreadyAt(inputs, 0, sources, obj, snap, ac)
         || SomeUnready(inputs[1..], sources, FillFrom(inputs[0], sources, obj, snap, ac), snap, ac)
  {
    var k :| 0 <= k < |inputs| && UnreadyAt(inputs, k, sources, obj, snap, ac);
    if k > 0 {
      FirstOfRest(inputs, k, sources, obj, snap, ac);
      assert UnreadyAt(inputs[1..], k - 1, sources, FillFrom(inputs[0], sources, obj, snap, ac), snap, ac);
    }
  }

  lemma SomeUnreadySplit(inputs: seq<DataInput>, sources: Sources, obj: Value, snap: Snapshot, ac: Value)
    requires inputs != []
    ensures SomeUnready(inputs, sources, obj, snap, ac) <==>
              UnreadyFor(inputs[0], sources, obj, snap, ac)
              || SomeUnready(inputs[1..], sources, FillFrom(inputs[0], sources, obj, snap, ac), snap, ac)
  {
    assert UnreadyAt(inputs, 0, sources, obj, snap, ac) == UnreadyFor(inputs[0], sources, obj, snap, ac);
    UnreadyInRest(inputs, sources, obj, snap, ac);
    if SomeUnready(inputs, sources, obj, snap, ac) { UnreadyFirstOrLater(inputs, sources, obj, snap, ac); }
  }

  lemma SourceOf(input: DataInput, sources: Sources, obj: Value, snap: Snapshot, ac: Value)
    requires Named(input)
    ensures var r := SourceReading(input, sources, snap, ac);
            match HandleSource(input, sources, obj, snap, ac)
            case Filled(next) => r.Ready? && FillAll(obj, input.toFieldPaths, r.value) == Some(next)
            case Held(left, dep) => r.NotReady? && left == obj && dep.to == KeyOf(obj)
            case Broken => r.Failed? || (r.Ready? && FillAll(obj, input.toFieldPaths, r.value).None?)
  {
  }

  lemma OwnConditionsOf(input: DataInput, sources: Sources, obj: Value, snap: Snapshot, ac: Value)
    requires input.conditions != []
    ensures var r := OwnReading(input, sources, KeyOf(obj), snap, ac);
            match HandleOwnConditions(input, sources, obj, snap, ac)
            case Filled(next) => r.Ready? && next == obj
            case Held(left, dep) => r.NotReady? && left == obj && dep.to == KeyOf(obj)
            case Broken => r.Failed?
  {
  }

  lemma OneInput(input: DataInput, sources: Sources, obj: Value, snap: Snapshot, ac: Value)
    ensures HandleInput(input, sources, obj, snap, ac).Broken? <==> Faulty(input, sources, obj, snap, ac)
    ensures HandleInput(input, sources, obj, snap, ac).Held? ==> UnreadyFor(input, sources, obj, snap, ac)
    ensures HandleInput(input, sources, obj, snap, ac).Filled? ==> !UnreadyFor(input, sources, obj, snap, ac)
    ensures match HandleInput(input, sources, obj, snap, ac)
            case Filled(next) => next == FillFrom(input, sources, obj, snap, ac)
            case Held(left, dep) => dep.to == KeyOf(left) && (left == obj || left == FillFrom(input, sources, obj, snap, ac))
            case Broken => true
  {
    var next := FillFrom(input, sources, obj, snap, ac);
    if Named(input) { SourceOf(input, sources, obj, snap, ac); }
    if input.conditions != [] { OwnConditionsOf(input, sources, next, snap, ac); }
  }

  /** If nothing fails, an object is held exactly when some input is unready; if it is not held, the values of
      all its inputs are put in. */
  lemma {:induction false} HeldExactlyWhenUnready(inputs: seq<DataInput>, sources: Sources, obj: Value, snap: Snapshot, ac: Value)
    requires !HandleInputs(inputs, sources, obj, snap, ac).Broken?
    ensures var r := HandleInputs(inputs, sources, obj, snap, ac);
            && (r.Held? <==> SomeUnready(inputs, sources, obj, snap, ac))
            && (r.Held? ==> r.dep.to == KeyOf(r.obj))
            && (r.Filled? ==> r.obj == FilledThrough(inputs, |inputs|, sources, obj, snap, ac))
    decreases |inputs|
  {
    if inputs != [] {
      OneInput(inputs[0], sources, obj, snap, ac);
      SomeUnreadySplit(inputs, sources, obj, snap, ac);
      if HandleInput(inputs[0], sources, obj, snap, ac).Filled? {
        HeldExactlyWhenUnready(inputs[1..], sources, FillFrom(inputs[0], sources, obj, snap, ac), snap, ac);
      }
    }
  }

  /** The k-th input cannot be handled, and none before it holds the object back. */
  predicate StopsAt(inputs: seq<DataInput>, k: nat, sources: Sources, obj: Value, snap: Snapshot, ac: Value)
    requires k < |inputs|
  {
    FaultyAt(inputs, k, sources, obj, snap, ac) && forall j :: 0 <= j < k ==> !UnreadyAt(inputs, j, sources, obj, snap, ac)
  }

  predicate SomeStops(inputs: seq<DataInput>, sources: Sources, obj: Value, snap: Snapshot, ac: Value) {
    exists k :: 0 <= k < |inputs| && StopsAt(inputs, k, sources, obj, snap, ac)
  }

  lemma StopsLater(inputs: seq<DataInput>, k: nat, sources: Sources, obj: Value, snap: Snapshot, ac: Value)
    requires 0 < k < |inputs|
    ensures StopsAt(inputs, k, sources, obj, snap, ac) <==>
              !UnreadyFor(inputs[0], sources, obj, snap, ac)
              && StopsAt(inputs[1..], k - 1, sources, FillFrom(inputs[0], sources, obj, snap, ac), snap, ac)
  {
    var next := FillFrom(inputs[0], sources, obj, snap, ac);
    FirstOfRest(inputs, k, sources, obj, snap, ac);
    assert UnreadyAt(inputs, 0, sources, obj, snap, ac) == UnreadyFor(inputs[0], sources, obj, snap, ac);
    forall j | 0 < j < k
      ensures UnreadyAt(inputs, j, sources, obj, snap, ac) == UnreadyAt(inputs[1..], j - 1, sources, next, snap, ac)
    {
      FirstOfRest(inputs, j, sources, obj, snap, ac);
    }
    forall j | 0 <= j < k - 1
      ensures UnreadyAt(inputs[1..], j, sources, next, snap, ac) == UnreadyAt(inputs, j + 1, sources, obj, snap, ac)
    {
      FirstOfRest(inputs, j + 1, sources, obj, snap, ac);
    }
  }

  lemma StopsInRest(inputs: seq<DataInput>, sources: Sources, obj: Value, snap: Snapshot, ac: Value)
    requires inputs != [] && !UnreadyFor(inputs[0], sources, obj, snap, ac)
    requires SomeStops(inputs[1..], sources, FillFrom(inputs[0], sources, obj, snap, ac), snap, ac)
    ensures SomeStops(inputs, sources, obj, snap, ac)
  {
    var rest, next := inputs[1..], FillFrom(inputs[0], sources, obj, snap, ac);
    var k :| 0 <= k < |rest| && StopsAt(rest, k, sources, next, snap, ac);
    StopsLater(inputs, k + 1, sources, obj, snap, ac);
    assert StopsAt(inputs, k + 1, sources, obj, snap, ac);
  }

  lemma StopsFirstOrLater(inputs: seq<DataInput>, sources: Sources, obj: Value, snap: Snapshot, ac: Value)
    requires inputs != [] && SomeStops(inputs, sources, obj, snap, ac)
    ensures StopsAt(inputs, 0, sources, obj, snap, ac)
         || (!UnreadyFor(inputs[0], sources, obj, snap, ac)
             && SomeStops(inputs[1..], sources, FillFrom(inputs[0], sources, obj, snap, ac), snap, ac))
  {
    var k :| 0 <= k < |inputs| && StopsAt(inputs, k, sources, obj, snap, ac);
    if k > 0 {
      StopsLater(inputs, k, sources, obj, snap, ac);
      assert StopsAt(inputs[1..], k - 1, sources, FillFrom(inputs[0], sources, obj, snap, ac), snap, ac);
    }
  }

  lemma SomeStopsSplit(inputs: seq<DataInput>, sources: Sources, obj: Value, snap: Snapshot, ac: Value)
    requires inputs != []
    ensures SomeStops(inputs, sources, obj, snap, ac) <==>
              Faulty(inputs[0], sources, obj, snap, ac)
              || (!UnreadyFor(inputs[0], sources, obj, snap, ac)
                  && SomeStops(inputs[1..], sources, FillFrom(inputs[0], sources, obj, snap, ac), snap, ac))
  {
    assert StopsAt(inputs, 0, sources, obj, snap, ac) == Faulty(inputs[0], sources, obj, snap, ac);
    if SomeStops(inputs, sources, obj, snap, ac) {
      StopsFirstOrLater(inputs, sources, obj, snap, ac);
    }
    if !UnreadyFor(inputs[0], sources, obj, snap, ac)
      && SomeStops(inputs[1..], sources, FillFrom(inputs[0], sources, obj, snap, ac), snap, ac) {
      StopsInRest(inputs, sources, obj, snap, ac);
    }
  }

  /** Handling the inputs of an object fails exactly when one of them cannot be handled and none before it holds
      the object back. */
  lemma {:induction false} BrokenExactlyWhen(inputs: seq<DataInput>, sources: Sources, obj: Value, snap: Snapshot, ac: Value)
    ensures HandleInputs(inputs, sources, obj, snap, ac).Broken? <==> SomeStops(inputs, sources, obj, snap, ac)
    decreases |inputs|
  {
    if inputs != [] {
      OneInput(inputs[0], sources, obj, snap, ac);
      SomeStopsSplit(inputs, sources, obj, snap, ac);
      if HandleInput(inputs[0], sources, obj, snap, ac).Filled? {
        BrokenExactlyWhen(inputs[1..], sources, FillFrom(inputs[0], sources, obj, snap, ac), snap, ac);
      }
    }
  }

  // ---------- objects that keep their names ----------

  /** No input is declared to fill any of these paths. */
  predicate KeepsPaths(inputs: seq<DataInput>, kept: seq<Path>) {
    forall k :: 0 <= k < |inputs| ==> Avoids(inputs[k].toFieldPaths, kept)
  }

  predicate KeepsKey(inputs: seq<DataInput>) {
    KeepsPaths(inputs, KEY_PATHS)
  }

  lemma FillFromKeeps(input: DataInput, sources: Sources, obj: Value, snap: Snapshot, ac: Value, kept: seq<Path>)
    requires Avoids(input.toFieldPaths, kept)
    ensures SameAt(FillFrom(input, sources, obj, snap, ac), obj, kept)
  {
    var next, r := FillFrom(input, sources, obj, snap, ac), SourceReading(input, sources, snap, ac);
    if next != obj {
      FillKeeps(obj, input.toFieldPaths, r.value, kept);
    }
  }

  lemma {:induction false} FilledKeeps(inputs: seq<DataInput>, k: nat, sources: Sources, obj: Value, snap: Snapshot, ac: Value, kept: seq<Path>)
    requires k <= |inputs| && KeepsPaths(inputs, kept)
    ensures SameAt(FilledThrough(inputs, k, sources, obj, snap, ac), obj, kept)
    decreases k
  {
    if k > 0 {
      FillFromKeeps(inputs[0], sources, obj, snap, ac, kept);
      FilledKeeps(inputs[1..], k - 1, sources, FillFrom(inputs[0], sources, obj, snap, ac), snap, ac, kept);
    }
  }

  /** However far the inputs of an object are put in, and whether or not it is held, it keeps the paths no input
      is declared to fill. */
  lemma {:induction false} GatedKeeps(inputs: seq<DataInput>, sources: Sources, obj: Value, snap: Snapshot, ac: Value, kept: seq<Path>)
    requires KeepsPaths(inputs, kept)
    ensures var r := HandleInputs(inputs, sources, obj, snap, ac); !r.Broken? ==> SameAt(r.obj, obj, kept)
    decreases |inputs|
  {
    if inputs != [] {
      FillFromKeeps(inputs[0], sources, obj, snap, ac, kept);
      OneInput(inputs[0], sources, obj, snap, ac);
      GatedKeeps(inputs[1..], sources, FillFrom(inputs[0], sources, obj, snap, ac), snap, ac, kept);
    }
  }

  /** Then readiness needs no reference to the order inputs are handled in. */
  lemma UnreadyInAnyOrder(inputs: seq<DataInput>, k: nat, sources: Sources, obj: Value, snap: Snapshot, ac: Value)
    requires k < |inputs| && KeepsKey(inputs)
    ensures UnreadyAt(inputs, k, sources, obj, snap, ac) <==> Unready(inputs[k], sources, KeyOf(obj), snap, ac)
  {
    var before := FilledThrough(inputs, k, sources, obj, snap, ac);
    FilledKeeps(inputs, k, sources, obj, snap, ac, KEY_PATHS);
    FillFromKeeps(inputs[k], sources, before, snap, ac, KEY_PATHS);
    SameKey(before, obj);
    SameKey(FillFrom(inputs[k], sources, before, snap, ac), before);
  }

  // ---------- rendering the whole application ----------

  datatype Gated = Gated(content: Value, hasDep: bool)

  datatype Rendering = Rendering(objects: seq<Gated>, unsatisfied: seq<Unsatisfied>)

  /** What becomes of one object: held back with the one dependency it waits for, or filled in. */
  datatype Gate = Gate(obj: Gated, deps: seq<Unsatisfied>)

  function GateNode(n: Node, sources: Sources, snap: Snapshot, ac: Value): Option<Gate> {
    match HandleInputs(n.inputs, sources, n.content, snap, ac)
    case Broken => None
    case Held(content, dep) => Some(Gate(Gated(content, true), [dep]))
    case Filled(content) => Some(Gate(Gated(content, false), []))
  }

  function Extend(done: Rendering, g: Gate): Rendering {
    Rendering(done.objects + [g.obj], done.unsatisfied + g.deps)
  }

  function GateNodes(done: Rendering, nodes: seq<Node>, sources: Sources, snap: Snapshot, ac: Value): (r: Option<Rendering>)
    ensures r.Some? ==> |r.value.objects| == |done.objects| + |nodes|
    decreases |nodes|
  {
    if nodes == [] then Some(done)
    else
      match GateNode(nodes[0], sources, snap, ac)
      case None => None
      case Some(g) => GateNodes(Extend(done, g), nodes[1..], sources, snap, ac)
  }

  function Render(app: seq<Component>, snap: Snapshot, ac: Value): Option<Rendering> {
    GateNodes(Rendering([], []), Nodes(app), SourcesOf(app), snap, ac)
  }

  function HeldKeys(objects: seq<Gated>): seq<Key> {
    if objects == [] then []
    else (
      var last := objects[|objects| - 1];
      HeldKeys(objects[..|objects| - 1]) + (if last.hasDep then [KeyOf(last.content)] else [])
    )
  }

  function TargetKeys(deps: seq<Unsatisfied>): seq<Key> {
    seq(|deps|, i requires 0 <= i < |deps| => deps[i].to)
  }

  predicate HasUnreadyInput(n: Node, sources: Sources, snap: Snapshot, ac: Value) {
    SomeUnready(n.inputs, sources, n.content, snap, ac)
  }

  predicate GatedExactly(o: Gated, n: Node, sources: Sources, snap: Snapshot, ac: Value) {
    && (o.hasDep <==> HasUnreadyInput(n, sources, snap, ac))
    && (!o.hasDep ==> o.content == FilledThrough(n.inputs, |n.inputs|, sources, n.content, snap, ac))
    && (KeepsKey(n.inputs) ==> KeyOf(o.content) == KeyOf(n.content))
  }

  lemma GateNodeExact(n: Node, sources: Sources, snap: Snapshot, ac: Value)
    requires GateNode(n, sources, snap, ac).Some?
    ensures var g := GateNode(n, sources, snap, ac).value;
            && GatedExactly(g.obj, n, sources, snap, ac)
            && TargetKeys(g.deps) == (if g.obj.hasDep then [KeyOf(g.obj.content)] else [])
  {
    HeldExactlyWhenUnready(n.inputs, sources, n.content, snap, ac);
    if KeepsKey(n.inputs) {
      GatedKeeps(n.inputs, sources, n.content, snap, ac, KEY_PATHS);
      SameKey(GateNode(n, sources, snap, ac).value.obj.content, n.content);
    }
  }

  lemma ExtendKeepsCorrespondence(done: Rendering, g: Gate)
    requires TargetKeys(done.unsatisfied) == HeldKeys(done.objects)
    requires TargetKeys(g.deps) == (if g.obj.hasDep then [KeyOf(g.obj.content)] else [])
    ensures TargetKeys(Extend(done, g).unsatisfied) == HeldKeys(Extend(done, g).objects)
  {
    var objects := done.objects + [g.obj];
    assert objects[..|objects| - 1] == done.objects;
    assert TargetKeys(done.unsatisfied + g.deps) == TargetKeys(done.unsatisfied) + TargetKeys(g.deps);
  }

  /** From position d on, the objects are these nodes, gated. */
  ghost predicate GatedFrom(objects: seq<Gated>, d: nat, nodes: seq<Node>, sources: Sources, snap: Snapshot, ac: Value) {
    && |objects| == d + |nodes|
    && forall i :: 0 <= i < |nodes| ==> GatedExactly(objects[d + i], nodes[i], sources, snap, ac)
  }

  lemma GatedFromEarlier(objects: seq<Gated>, d: nat, nodes: seq<Node>, sources: Sources, snap: Snapshot, ac: Value)
    requires nodes != [] && GatedFrom(objects, d + 1, nodes[1..], sources, snap, ac)
    requires GatedExactly(objects[d], nodes[0], sources, snap, ac)
    ensures GatedFrom(objects, d, nodes, sources, snap, ac)
  {
    forall i | 0 <= i < |nodes| ensures GatedExactly(objects[d + i], nodes[i], sources, snap, ac) {
      if i > 0 {
        assert GatedExactly(objects[d + 1 + (i - 1)], nodes[1..][i - 1], sources, snap, ac);
      }
    }
  }

  lemma {:induction false} GateNodesExact(done: Rendering, nodes: seq<Node>, sources: Sources, snap: Snapshot, ac: Value)
    requires GateNodes(done, nodes, sources, snap, ac).Some?
    requires TargetKeys(done.unsatisfied) == HeldKeys(done.objects)
    ensures var r := GateNodes(done, nodes, sources, snap, ac).value;
            && GatedFrom(r.objects, |done.objects|, nodes, sources, snap, ac)
            && r.objects[..|done.objects|] == done.objects
            && TargetKeys(r.unsatisfied) == HeldKeys(r.objects)
    decreases |nodes|
  {
    if nodes != [] {
      GateNodeExact(nodes[0], sources, snap, ac);
      var g := GateNode(nodes[0], sources, snap, ac).value;
      ExtendKeepsCorrespondence(done, g);
      GateNodesExact(Extend(done, g), nodes[1..], sources, snap, ac);
      var r := GateNodes(done, nodes, sources, snap, ac).value;
      var d := |done.objects|;
      assert r.objects[d] == r.objects[..d + 1][d] == g.obj;
      assert r.objects[..d] == r.objects[..d + 1][..d];
      GatedFromEarlier(r.objects, d, nodes, sources, snap, ac);
    }
  }

  /** Gating is exact. When Render returns no error, every workload and trait is rendered in order, is held
      back exactly when one of its inputs is unready in the snapshot, has the values of all its inputs otherwise,
      and adds one entry to the unsatisfied dependencies exactly when it is held. */
  lemma GatingIsExact(app: seq<Component>, snap: Snapshot, ac: Value)
    requires Render(app, snap, ac).Some?
    ensures var r, nodes := Render(app, snap, ac).value, Nodes(app);
            && |r.objects| == |nodes|
            && (forall i :: 0 <= i < |nodes| ==>
                  GatedExactly(r.objects[i], nodes[i], SourcesOf(app), snap, ac))
            && TargetKeys(r.unsatisfied) == HeldKeys(r.objects)
  {
    GateNodesExact(Rendering([], []), Nodes(app), SourcesOf(app), snap, ac);
    assert GatedFrom(Render(app, snap, ac).value.objects, 0, Nodes(app), SourcesOf(app), snap, ac);
    forall i | 0 <= i < |Nodes(app)|
      ensures GatedExactly(Render(app, snap, ac).value.objects[i], Nodes(app)[i], SourcesOf(app), snap, ac)
    {
      assert GatedExactly(Render(app, snap, ac).value.objects[0 + i], Nodes(app)[i], SourcesOf(app), snap, ac);
    }
    var r := Render(app, snap, ac).value;
    assert forall i :: 0 <= i < |Nodes(app)| ==> r.objects[0 + i] == r.objects[i];
  }

  lemma {:induction false} NoneHeld(objects: seq<Gated>)
    ensures HeldKeys(objects) == [] <==> forall i :: 0 <= i < |objects| ==> !objects[i].hasDep
  {
    if objects != [] {
      NoneHeld(objects[..|objects| - 1]);
      forall i | 0 <= i < |objects| - 1 ensures objects[..|objects| - 1][i] == objects[i] {}
    }
  }

  /** Nothing unsatisfied means nothing is held back. */
  lemma NothingUnsatisfiedHoldsNothing(app: seq<Component>, snap: Snapshot, ac: Value)
    requires Render(app, snap, ac).Some?
    ensures var r := Render(app, snap, ac).value;
            r.unsatisfied == [] <==> forall i :: 0 <= i < |r.objects| ==> !r.objects[i].hasDep
  {
    GatingIsExact(app, snap, ac);
    var r := Render(app, snap, ac).value;
    assert |TargetKeys(r.unsatisfied)| == |r.unsatisfied|;
    NoneHeld(r.objects);
  }

  predicate Breaks(n: Node, sources: Sources, snap: Snapshot, ac: Value) {
    HandleInputs(n.inputs, sources, n.content, snap, ac).Broken?
  }

  lemma {:induction false} GatedUnlessBroken(done: Rendering, nodes: seq<Node>, sources: Sources, snap: Snapshot, ac: Value)
    ensures GateNodes(done, nodes, sources, snap, ac).Some? <==>
              forall i :: 0 <= i < |nodes| ==> !Breaks(nodes[i], sources, snap, ac)
    decreases |nodes|
  {
    if nodes != [] && GateNode(nodes[0], sources, snap, ac).Some? {
      GatedUnlessBroken(Extend(done, GateNode(nodes[0], sources, snap, ac).value), nodes[1..], sources, snap, ac);
      assert forall i :: 0 < i < |nodes| ==> nodes[i] == nodes[1..][i - 1];
    }
  }

  /** Render returns no error exactly when no object has an input that cannot be handled and that no earlier
      unready input hides. */
  lemma RenderSucceedsExactlyWhen(app: seq<Component>, snap: Snapshot, ac: Value)
    ensures Render(app, snap, ac).Some? <==>
              forall n :: n in Nodes(app) ==> !SomeStops(n.inputs, SourcesOf(app), n.content, snap, ac)
  {
    GatedUnlessBroken(Rendering([], []), Nodes(app), SourcesOf(app), snap, ac);
    forall n ensures Breaks(n, SourcesOf(app), snap, ac) <==> SomeStops(n.inputs, SourcesOf(app), n.content, snap, ac) {
      BrokenExactlyWhen(n.inputs, SourcesOf(app), n.content, snap, ac);
    }
  }

  // ---------- what is reported of an object that is held ----------

  /** The dependency reports input k: from where to where. */
  predicate ReportsInput(dep: Unsatisfied, input: DataInput, sources: Sources, to: Key) {
    && input.outputName in sources && dep.to == to && dep.toPaths == input.toFieldPaths
    && dep.from == sources[input.outputName].obj && dep.fromPath == sources[input.outputName].fieldPath
  }

  predicate FirstUnready(inputs: seq<DataInput>, k: nat, sources: Sources, obj: Value, snap: Snapshot, ac: Value) {
    k < |inputs| && UnreadyAt(inputs, k, sources, obj, snap, ac) && forall j :: 0 <= j < k ==> !UnreadyAt(inputs, j, sources, obj, snap, ac)
  }

  lemma FirstUnreadyLater(inputs: seq<DataInput>, m: nat, sources: Sources, obj: Value, snap: Snapshot, ac: Value)
    requires inputs != [] && !UnreadyFor(inputs[0], sources, obj, snap, ac)
    requires FirstUnready(inputs[1..], m, sources, FillFrom(inputs[0], sources, obj, snap, ac), snap, ac)
    ensures FirstUnready(inputs, m + 1, sources, obj, snap, ac)
  {
    var next := FillFrom(inputs[0], sources, obj, snap, ac);
    FirstOfRest(inputs, m + 1, sources, obj, snap, ac);
    forall j | 0 <= j < m + 1 ensures !UnreadyAt(inputs, j, sources, obj, snap, ac) {
      if j > 0 {
        FirstOfRest(inputs, j, sources, obj, snap, ac);
        assert !UnreadyAt(inputs[1..], j - 1, sources, next, snap, ac);
      }
    }
  }

  lemma HeldByInput(input: DataInput, sources: Sources, obj: Value, snap: Snapshot, ac: Value)
    requires HandleInput(input, sources, obj, snap, ac).Held?
    ensures var r := HandleInput(input, sources, obj, snap, ac); ReportsInput(r.dep, input, sources, KeyOf(r.obj))
  {
    SourceReports(input, sources, obj, snap, ac);
    var first := if Named(input) then HandleSource(input, sources, obj, snap, ac) else Filled(obj);
    if first.Filled? { OwnReports(input, sources, first.obj, snap, ac); }
  }

  lemma SourceReports(input: DataInput, sources: Sources, obj: Value, snap: Snapshot, ac: Value)
    ensures var r := HandleSource(input, sources, obj, snap, ac); r.Held? ==> r.obj == obj && ReportsInput(r.dep, input, sources, KeyOf(obj))
  {
  }

  lemma OwnReports(input: DataInput, sources: Sources, obj: Value, snap: Snapshot, ac: Value)
    ensures var r := HandleOwnConditions(input, sources, obj, snap, ac); r.Held? ==> r.obj == obj && ReportsInput(r.dep, input, sources, KeyOf(obj))
  {
  }

  /** An object that is held is reported with the first of its inputs that is unready. */
  lemma {:induction false} HeldReportsTheFirst(inputs: seq<DataInput>, sources: Sources, obj: Value, snap: Snapshot, ac: Value) returns (k: nat)
    requires HandleInputs(inputs, sources, obj, snap, ac).Held?
    ensures FirstUnready(inputs, k, sources, obj, snap, ac)
    ensures var r := HandleInputs(inputs, sources, obj, snap, ac); ReportsInput(r.dep, inputs[k], sources, KeyOf(r.obj))
    decreases |inputs|
  {
    OneInput(inputs[0], sources, obj, snap, ac);
    if HandleInput(inputs[0], sources, obj, snap, ac).Held? {
      k := 0;
      HeldByInput(inputs[0], sources, obj, snap, ac);
    } else {
      var m := HeldReportsTheFirst(inputs[1..], sources, FillFrom(inputs[0], sources, obj, snap, ac), snap, ac);
      k := m + 1;
      FirstUnreadyLater(inputs, m, sources, obj, snap, ac);
    }
  }

  /** Some entry reports this object, with the first of its inputs that is unready. */
  ghost predicate IsReported(unsatisfied: seq<Unsatisfied>, o: Gated, n: Node, sources: Sources, snap: Snapshot, ac: Value) {
    exists u, k: nat :: u in unsatisfied && FirstUnready(n.inputs, k, sources, n.content, snap, ac)
                     && ReportsInput(u, n.inputs[k], sources, KeyOf(o.content))
  }

  lemma GateReports(n: Node, sources: Sources, snap: Snapshot, ac: Value)
    requires GateNode(n, sources, snap, ac).Some? && GateNode(n, sources, snap, ac).value.obj.hasDep
    ensures var g := GateNode(n, sources, snap, ac).value; IsReported(g.deps, g.obj, n, sources, snap, ac)
  {
    var k := HeldReportsTheFirst(n.inputs, sources, n.content, snap, ac);
    var g := GateNode(n, sources, snap, ac).value;
    assert g.deps[0] in g.deps;
  }

  lemma {:induction false} GatesKeepDone(done: Rendering, nodes: seq<Node>, sources: Sources, snap: Snapshot, ac: Value, i: nat)
    requires GateNodes(done, nodes, sources, snap, ac).Some? && i < |done.objects|
    ensures var r := GateNodes(done, nodes, sources, snap, ac).value;
            r.objects[i] == done.objects[i] && forall u :: u in done.unsatisfied ==> u in r.unsatisfied
    decreases |nodes|
  {
    if nodes != [] {
      GatesKeepDone(Extend(done, GateNode(nodes[0], sources, snap, ac).value), nodes[1..], sources, snap, ac, i);
    }
  }

  lemma {:induction false} GatesReport(done: Rendering, nodes: seq<Node>, sources: Sources, snap: Snapshot, ac: Value, b: nat)
    requires GateNodes(done, nodes, sources, snap, ac).Some? && b < |nodes|
    ensures var r, o := GateNodes(done, nodes, sources, snap, ac).value, |done.objects| + b;
            r.objects[o].hasDep ==> IsReported(r.unsatisfied, r.objects[o], nodes[b], sources, snap, ac)
    decreases |nodes|
  {
    var g := GateNode(nodes[0], sources, snap, ac).value;
    var next := Extend(done, g);
    if b == 0 {
      GatesKeepDone(next, nodes[1..], sources, snap, ac, |done.objects|);
      if g.obj.hasDep {
        GateReports(nodes[0], sources, snap, ac);
        ReportedInMore(g.deps, next.unsatisfied, g.obj, nodes[0], sources, snap, ac);
        ReportedInMore(next.unsatisfied, GateNodes(done, nodes, sources, snap, ac).value.unsatisfied, g.obj, nodes[0], sources, snap, ac);
      }
    } else {
      GatesReport(next, nodes[1..], sources, snap, ac, b - 1);
    }
  }

  lemma ReportedInMore(few: seq<Unsatisfied>, more: seq<Unsatisfied>, o: Gated, n: Node, sources: Sources, snap: Snapshot, ac: Value)
    requires IsReported(few, o, n, sources, snap, ac) && forall u :: u in few ==> u in more
    ensures IsReported(more, o, n, sources, snap, ac)
  {
  }

  /** When Render returns no error, every object that is held back is reported, with the first of its inputs that is
      unready, where that takes its value from and where it puts it. */
  lemma HeldIsReported(app: seq<Component>, snap: Snapshot, ac: Value, b: nat)
    requires Render(app, snap, ac).Some? && b < |Nodes(app)|
    ensures var r := Render(app, snap, ac).value;
            && b < |r.objects|
            && (r.objects[b].hasDep ==> IsReported(r.unsatisfied, r.objects[b], Nodes(app)[b], SourcesOf(app), snap, ac))
  {
    GatesReport(Rendering([], []), Nodes(app), SourcesOf(app), snap, ac, b);
    var r := Render(app, snap, ac).value;
    assert r.objects[0 + b] == r.objects[b];
  }

  // ---------- the gate, in terms of the cluster ----------

  /** The source an input names is declared, and hands on a value if anything is asked of it. */
  ghost predicate Arrived(input: DataInput, sources: Sources, snap: Snapshot, ac: Value) {
    Named(input) ==>
      && input.outputName in sources
      && var s := sources[input.outputName];
         Guarded(s) ==> s.obj !in snap.unreadable && exists v :: Delivers(s, snap, ac, v)
  }

  /** The conditions an input puts on its own object, if any, do not speak against it. */
  ghost predicate OwnMet(input: DataInput, sources: Sources, key: Key, snap: Snapshot, ac: Value) {
    input.conditions != [] ==>
      && input.outputName in sources && key !in snap.unreadable
      && (key in snap.objects ==> AllSatisfied(input.conditions, snap.objects[key], None, ac))
  }

  lemma ReadingsExactly(input: DataInput, sources: Sources, key: Key, snap: Snapshot, ac: Value)
    ensures SourceReading(input, sources, snap, ac).Ready? <==> Arrived(input, sources, snap, ac)
    ensures OwnReading(input, sources, key, snap, ac).Ready? <==> OwnMet(input, sources, key, snap, ac)
  {
    if Named(input) && input.outputName in sources && Guarded(sources[input.outputName]) {
      var r := GetDataInput(sources[input.outputName], snap, ac, false);
      ReadyExactlyWhen(sources[input.outputName], snap, ac);
      if r.Ready? { assert Delivers(sources[input.outputName], snap, ac, r.value); }
    }
    if input.conditions != [] { OwnReadyExactlyWhen(key, input.conditions, snap, ac); }
  }

  ghost predicate AllArrived(n: Node, sources: Sources, snap: Snapshot, ac: Value) {
    forall k :: 0 <= k < |n.inputs| ==>
      Arrived(n.inputs[k], sources, snap, ac) && OwnMet(n.inputs[k], sources, KeyOf(n.content), snap, ac)
  }

  lemma FaultyKeepingKey(inputs: seq<DataInput>, k: nat, sources: Sources, obj: Value, snap: Snapshot, ac: Value)
    requires k < |inputs| && KeepsKey(inputs) && !FaultyAt(inputs, k, sources, obj, snap, ac)
    requires !Unready(inputs[k], sources, KeyOf(obj), snap, ac)
    ensures Arrived(inputs[k], sources, snap, ac) && OwnMet(inputs[k], sources, KeyOf(obj), snap, ac)
  {
    var before := FilledThrough(inputs, k, sources, obj, snap, ac);
    FilledKeeps(inputs, k, sources, obj, snap, ac, KEY_PATHS);
    FillFromKeeps(inputs[k], sources, before, snap, ac, KEY_PATHS);
    SameKey(before, obj);
    SameKey(FillFrom(inputs[k], sources, before, snap, ac), before);
    ReadingsExactly(inputs[k], sources, KeyOf(obj), snap, ac);
  }

  lemma NothingStops(n: Node, sources: Sources, snap: Snapshot, ac: Value, k: nat)
    requires !SomeStops(n.inputs, sources, n.content, snap, ac) && !HasUnreadyInput(n, sources, snap, ac) && k < |n.inputs|
    ensures !FaultyAt(n.inputs, k, sources, n.content, snap, ac) && !UnreadyAt(n.inputs, k, sources, n.content, snap, ac)
  {
    assert !StopsAt(n.inputs, k, sources, n.content, snap, ac);
  }

  /** An object that keeps its name, and whose handling does not fail, is handed over exactly when all its inputs have
      arrived: every source they name is declared, exists, has the field, and its value passes; and the object's own
      conditions hold. */
  lemma HeldExactlyWhenNotArrived(n: Node, sources: Sources, snap: Snapshot, ac: Value)
    requires GateNode(n, sources, snap, ac).Some? && KeepsKey(n.inputs)
    ensures !GateNode(n, sources, snap, ac).value.obj.hasDep <==> AllArrived(n, sources, snap, ac)
  {
    GateNodeExact(n, sources, snap, ac);
    BrokenExactlyWhen(n.inputs, sources, n.content, snap, ac);
    if HasUnreadyInput(n, sources, snap, ac) {
      var k :| 0 <= k < |n.inputs| && UnreadyAt(n.inputs, k, sources, n.content, snap, ac);
      UnreadyInAnyOrder(n.inputs, k, sources, n.content, snap, ac);
      ReadingsExactly(n.inputs[k], sources, KeyOf(n.content), snap, ac);
    } else {
      forall k | 0 <= k < |n.inputs|
        ensures Arrived(n.inputs[k], sources, snap, ac) && OwnMet(n.inputs[k], sources, KeyOf(n.content), snap, ac)
      {
        NothingStops(n, sources, snap, ac, k);
        UnreadyInAnyOrder(n.inputs, k, sources, n.content, snap, ac);
        FaultyKeepingKey(n.inputs, k, sources, n.content, snap, ac);
      }
    }
  }

  /** And whatever it is called: when Render returns no error, an object that names a source which exists but does not have the field yet is held
      back. */
  lemma HeldUntilTheFieldIsThere(app: seq<Component>, snap: Snapshot, ac: Value, b: nat, k: nat)
    requires Render(app, snap, ac).Some? && b < |Nodes(app)| && k < |Nodes(app)[b].inputs|
    requires Named(Nodes(app)[b].inputs[k]) && Nodes(app)[b].inputs[k].outputName in SourcesOf(app)
    requires var s := SourcesOf(app)[Nodes(app)[b].inputs[k].outputName];
             && s.obj in snap.objects && s.obj !in snap.unreadable
             && Get(snap.objects[s.obj], s.fieldPath).NotFound?
    ensures b < |Render(app, snap, ac).value.objects| && Render(app, snap, ac).value.objects[b].hasDep
  {
    var n, sources := Nodes(app)[b], SourcesOf(app);
    var s := sources[n.inputs[k].outputName];
    GatingIsExact(app, snap, ac);
    assert GatedExactly(Render(app, snap, ac).value.objects[b], n, sources, snap, ac);
    ReadyExactlyWhen(s, snap, ac);
    assert UnreadyAt(n.inputs, k, sources, n.content, snap, ac);
  }

  // ---------- what is filled in ----------

  /** What a field holds once a value has been filled in: a list is appended to a list that is there. */
  function Filling(was: Finding, v: Value): Value {
    if v.List? && was.Found? && was.value.List? then List(was.value.items + v.items) else v
  }

  lemma {:induction false} FillDelivers(obj: Value, paths: seq<Path>, j: nat, v: Value)
    requires j < |paths| && paths[j] != [] && FillAll(obj, paths, v).Some?
    requires forall l :: 0 <= l < |paths| && l != j ==> Apart(paths[l], paths[j])
    ensures Get(FillAll(obj, paths, v).value, paths[j]) == Found(Filling(Get(obj, paths[j]), v))
    decreases |paths|
  {
    var next := FillOne(obj, paths[0], v).value;
    if j == 0 {
      GetAfterSet(obj, paths[0], Filling(Get(obj, paths[0]), v));
      assert AllAvoid(paths[1..], paths[0]);
      FillLeavesApart(next, paths[1..], v, paths[0]);
    } else {
      assert FillAll(obj, [paths[0]], v) == Some(next) by { assert [paths[0]][1..] == []; }
      FillLeavesApart(obj, [paths[0]], v, paths[j]);
      FillDelivers(next, paths[1..], j - 1, v);
    }
  }

  /** Path j of input k stands apart from every other target path of the object. */
  predicate Alone(inputs: seq<DataInput>, k: nat, j: nat)
    requires k < |inputs| && j < |inputs[k].toFieldPaths|
  {
    forall l, m :: 0 <= l < |inputs| && 0 <= m < |inputs[l].toFieldPaths| && (l != k || m != j) ==>
      Apart(inputs[l].toFieldPaths[m], inputs[k].toFieldPaths[j])
  }

  lemma OthersAvoid(inputs: seq<DataInput>, k: nat, j: nat, l: nat)
    requires k < |inputs| && j < |inputs[k].toFieldPaths| && Alone(inputs, k, j) && l < |inputs| && l != k
    ensures Avoids(inputs[l].toFieldPaths, [inputs[k].toFieldPaths[j]])
  {
    forall m | 0 <= m < |inputs[l].toFieldPaths| ensures Apart(inputs[l].toFieldPaths[m], inputs[k].toFieldPaths[j]) {}
  }

  /** The value an input hands on: what its source's field holds, or nothing if nothing is asked of the source. */
  ghost predicate HandsOn(input: DataInput, sources: Sources, snap: Snapshot, ac: Value, v: Value) {
    && Named(input) && input.outputName in sources
    && var s := sources[input.outputName];
       if Guarded(s) then s.obj !in snap.unreadable && Delivers(s, snap, ac, v) else v == Null
  }

  lemma FilledByThis(input: DataInput, sources: Sources, obj: Value, snap: Snapshot, ac: Value, j: nat, v: Value)
    requires HandleInput(input, sources, obj, snap, ac).Filled? && HandsOn(input, sources, snap, ac, v)
    requires j < |input.toFieldPaths| && input.toFieldPaths[j] != []
    requires forall l :: 0 <= l < |input.toFieldPaths| && l != j ==> Apart(input.toFieldPaths[l], input.toFieldPaths[j])
    ensures var p := input.toFieldPaths[j];
            Get(HandleInput(input, sources, obj, snap, ac).obj, p) == Found(Filling(Get(obj, p), v))
  {
    if Guarded(sources[input.outputName]) { ReadyExactlyWhen(sources[input.outputName], snap, ac); }
    FillDelivers(obj, input.toFieldPaths, j, v);
  }

  /** When an object is not held back, each of its target paths that stands apart from the others holds the value its
      source holds, appended to what was there if both are lists. */
  lemma {:induction false} InputIsFilledIn(
    inputs: seq<DataInput>, sources: Sources, obj: Value, snap: Snapshot, ac: Value, k: nat, j: nat, v: Value)
    requires k < |inputs| && j < |inputs[k].toFieldPaths| && inputs[k].toFieldPaths[j] != [] && Alone(inputs, k, j)
    requires HandsOn(inputs[k], sources, snap, ac, v) && HandleInputs(inputs, sources, obj, snap, ac).Filled?
    ensures var p := inputs[k].toFieldPaths[j];
            Get(HandleInputs(inputs, sources, obj, snap, ac).obj, p) == Found(Filling(Get(obj, p), v))
    decreases |inputs|
  {
    var p := inputs[k].toFieldPaths[j];
    var next := HandleInput(inputs[0], sources, obj, snap, ac).obj;
    if k > 0 {
      OthersAvoid(inputs, k, j, 0);
      OneInput(inputs[0], sources, obj, snap, ac);
      FillFromKeeps(inputs[0], sources, obj, snap, ac, [p]);
      assert Get(next, [p][0]) == Get(obj, [p][0]);
      InputIsFilledIn(inputs[1..], sources, next, snap, ac, k - 1, j, v);
    } else {
      FilledByThis(inputs[0], sources, obj, snap, ac, j, v);
      forall l | 0 <= l < |inputs[1..]| ensures Avoids(inputs[1..][l].toFieldPaths, [p]) { OthersAvoid(inputs, k, j, l + 1); }
      GatedKeeps(inputs[1..], sources, next, snap, ac, [p]);
      var r := HandleInputs(inputs[1..], sources, next, snap, ac);
      assert Get(r.obj, [p][0]) == Get(next, [p][0]);
    }
  }
}
