/** Resolving a component's parameters (resolve) and setting them in its workload (renderWorkload). */
module Parameters {
  import opened Wrappers
  import opened FieldPaths

  /** intstr.IntOrString */
  datatype ParameterValue = StrVal(s: string) | IntVal(n: int)

  datatype ComponentParameter = ComponentParameter(name: string, fieldPaths: seq<Path>, required: Option<bool>)

  datatype ComponentParameterValue = ComponentParameterValue(name: string, value: ParameterValue)

  datatype Parameter = Parameter(name: string, value: ParameterValue, fieldPaths: seq<Path>)

  datatype ResolveError = Unsupported(name: string) | RequiredMissing(name: string)

  // ---------- what resolve promises ----------

  predicate Declared(cp: seq<ComponentParameter>, name: string) {
    exists i :: 0 <= i < |cp| && cp[i].name == name
  }

  predicate Supplied(cpv: seq<ComponentParameterValue>, name: string) {
    exists i :: 0 <= i < |cpv| && cpv[i].name == name
  }

  function LastValue(cpv: seq<ComponentParameterValue>, name: string): ParameterValue
    requires Supplied(cpv, name)
  {
    var last := |cpv| - 1;
    if cpv[last].name == name then cpv[last].value else LastValue(cpv[..last], name)
  }

  /** The value of the last entry of that name. */
  lemma {:induction false} LastValueIsLast(cpv: seq<ComponentParameterValue>, name: string, i: nat)
    requires i < |cpv| && cpv[i].name == name && forall j :: i < j < |cpv| ==> cpv[j].name != name
    ensures Supplied(cpv, name) && LastValue(cpv, name) == cpv[i].value
  {
    var n := |cpv| - 1;
    if i < n {
      LastValueIsLast(cpv[..n], name, i);
    }
  }

  /** The paths of the last declaration of a name; none when it is not declared. */
  function LastPaths(cp: seq<ComponentParameter>, name: string): seq<Path> {
    var last := |cp| - 1;
    if cp == [] then []
    else if cp[last].name == name then cp[last].fieldPaths else LastPaths(cp[..last], name)
  }

  lemma {:induction false} LastPathsAreLast(cp: seq<ComponentParameter>, name: string, i: nat)
    requires i < |cp| && cp[i].name == name && forall j :: i < j < |cp| ==> cp[j].name != name
    ensures LastPaths(cp, name) == cp[i].fieldPaths
  {
    var n := |cp| - 1;
    if i < n { LastPathsAreLast(cp[..n], name, i); }
  }

  predicate Acceptable(cp: seq<ComponentParameter>, cpv: seq<ComponentParameterValue>) {
    && (forall i :: 0 <= i < |cpv| ==> Declared(cp, cpv[i].name))
    && (forall i :: 0 <= i < |cp| && cp[i].required == Some(true) ==> Supplied(cpv, cp[i].name))
  }

  /** One parameter per supplied name, in any order, holding the last value and the last declared paths. */
  predicate IsResolution(cp: seq<ComponentParameter>, cpv: seq<ComponentParameterValue>, ps: seq<Parameter>) {
    && (forall i, j :: 0 <= i < j < |ps| ==> ps[i].name != ps[j].name)
    && (forall i :: 0 <= i < |ps| ==>
          Supplied(cpv, ps[i].name)
          && ps[i] == Parameter(ps[i].name, LastValue(cpv, ps[i].name), LastPaths(cp, ps[i].name)))
    && (forall i :: 0 <= i < |cpv| ==> exists j :: 0 <= j < |ps| && ps[j].name == cpv[i].name)
  }

  lemma SuppliedPrefix(cpv: seq<ComponentParameterValue>, i: nat, name: string)
    requires i < |cpv|
    ensures Supplied(cpv[..i + 1], name) <==> Supplied(cpv[..i], name) || cpv[i].name == name
    ensures Supplied(cpv[..i + 1], name) ==>
              LastValue(cpv[..i + 1], name) ==
                (if cpv[i].name == name then cpv[i].value else LastValue(cpv[..i], name))
  {
    assert cpv[..i + 1][..i] == cpv[..i];
    if cpv[i].name == name { assert cpv[..i + 1][i].name == name; }
    forall k | 0 <= k < i ensures cpv[..i][k] == cpv[..i + 1][k] {}
  }

  /** The parameters a map holds: one for every supplied name, with the paths of the last declaration. */
  ghost predicate Holds(given: map<string, Parameter>, cp: seq<ComponentParameter>,
                        cpv: seq<ComponentParameterValue>) {
    && (forall name :: name in given <==> Supplied(cpv, name))
    && (forall name :: name in given ==>
          given[name] == Parameter(name, LastValue(cpv, name), LastPaths(cp, name)))
  }

  method DeclaredNames(cp: seq<ComponentParameter>) returns (supported: set<string>)
    ensures forall name :: name in supported <==> Declared(cp, name)
  {
    supported := {};
    for i := 0 to |cp|
      invariant forall name :: name in supported <==> Declared(cp[..i], name)
    {
      forall name ensures Declared(cp[..i + 1], name) <==> Declared(cp[..i], name) || cp[i].name == name {
        if cp[i].name == name { assert cp[..i + 1][i].name == name; }
        forall k | 0 <= k < i ensures cp[..i][k] == cp[..i + 1][k] {}
      }
      supported := supported + {cp[i].name};
    }
    assert cp[..|cp|] == cp;
  }

  method LatestValues(cp: seq<ComponentParameter>, cpv: seq<ComponentParameterValue>)
    returns (r: Result<map<string, Parameter>, ResolveError>)
    ensures r.Success? ==> Holds(r.value, [], cpv) && forall k :: 0 <= k < |cpv| ==> Declared(cp, cpv[k].name)
    ensures r.Failure? ==>
              r.error.Unsupported? && Supplied(cpv, r.error.name) && !Declared(cp, r.error.name)
  {
    var supported := DeclaredNames(cp);
    var given: map<string, Parameter> := map[];
    for i := 0 to |cpv|
      invariant Holds(given, [], cpv[..i])
      invariant forall k :: 0 <= k < i ==> Declared(cp, cpv[k].name)
    {
      var v := cpv[i];
      if v.name !in supported {
        return Failure(Unsupported(v.name));
      }
      forall name { SuppliedPrefix(cpv, i, name); }
      given := given[v.name := Parameter(v.name, v.value, [])];
    }
    assert cpv[..|cpv|] == cpv;
    return Success(given);
  }

  // Ranging over a map visits its keys in an unspecified order.
  method Listed(given: map<string, Parameter>) returns (params: seq<Parameter>)
    requires forall name :: name in given ==> given[name].name == name
    ensures forall i, j :: 0 <= i < j < |params| ==> params[i].name != params[j].name
    ensures forall i :: 0 <= i < |params| ==> params[i].name in given
    ensures forall i :: 0 <= i < |params| ==> params[i] == given[params[i].name]
    ensures forall name :: name in given ==> exists j :: 0 <= j < |params| && params[j].name == name
  {
    params := [];
    var left := given.Keys;
    while left != {}
      invariant left <= given.Keys
      invariant forall i :: 0 <= i < |params| ==> params[i].name in given && params[i].name !in left
      invariant forall i :: 0 <= i < |params| ==> params[i] == given[params[i].name]
      invariant forall i, j :: 0 <= i < j < |params| ==> params[i].name != params[j].name
      invariant forall name :: name in given && name !in left ==>
                  exists j :: 0 <= j < |params| && params[j].name == name
      decreases |left|
    {
      var name :| name in left;
      ghost var before := params;
      params := params + [given[name]];
      left := left - {name};
      assert params[|before|].name == name;
      forall other | other in given && other !in left && other != name
        ensures exists j :: 0 <= j < |params| && params[j].name == other
      {
        var j :| 0 <= j < |before| && before[j].name == other;
        assert params[j].name == other;
      }
    }
  }

  method Resolve(cp: seq<ComponentParameter>, cpv: seq<ComponentParameterValue>)
    returns (r: Result<seq<Parameter>, ResolveError>)
    ensures r.Success? <==> Acceptable(cp, cpv)
    ensures r.Success? ==> IsResolution(cp, cpv, r.value)
    ensures r.Failure? && r.error.Unsupported? ==> Supplied(cpv, r.error.name) && !Declared(cp, r.error.name)
    ensures r.Failure? && r.error.RequiredMissing? ==>
              !Supplied(cpv, r.error.name)
              && exists i :: 0 <= i < |cp| && cp[i].name == r.error.name && cp[i].required == Some(true)
  {
    var values := LatestValues(cp, cpv);
    if values.Failure? {
      return Failure(values.error);
    }
    var given := values.value;
    for i := 0 to |cp|
      invariant Holds(given, cp[..i], cpv)
      invariant forall k :: 0 <= k < i && cp[k].required == Some(true) ==> Supplied(cpv, cp[k].name)
    {
      var p := cp[i];
      assert cp[..i + 1][..i] == cp[..i];
      if p.name !in given && p.required.Some? && p.required.value {
        return Failure(RequiredMissing(p.name));
      }
      if p.name !in given {
        continue;
      }
      given := given[p.name := given[p.name].(fieldPaths := p.fieldPaths)];
    }
    assert cp[..|cp|] == cp;
    var params := Listed(given);
    forall i | 0 <= i < |cpv| ensures exists j :: 0 <= j < |params| && params[j].name == cpv[i].name {
      assert cpv[i].name in given;
    }
    return Success(params);
  }

  // ---------- rendering ----------

  function Scalar(v: ParameterValue): Value {
    match v case StrVal(s) => Text(s) case IntVal(n) => Number(n)
  }

  function Writes(p: Parameter): (ws: seq<Write>)
    ensures |ws| == |p.fieldPaths|
    ensures forall i :: 0 <= i < |ws| ==> ws[i] == Write(p.fieldPaths[i], Scalar(p.value))
  {
    seq(|p.fieldPaths|, i requires 0 <= i < |p.fieldPaths| => Write(p.fieldPaths[i], Scalar(p.value)))
  }

  function AllWrites(ps: seq<Parameter>): seq<Write> {
    if ps == [] then [] else Writes(ps[0]) + AllWrites(ps[1..])
  }

  /** The workload rendered from a template: None is an error. */
  function Rendered(data: Value, ps: seq<Parameter>): Option<Value> {
    SetAll(if data.Object? then Some(data) else None, AllWrites(ps))
  }

  /** The inner loop of renderWorkload: one parameter into each of its paths. */
  method WriteParameter(data: Value, p: Parameter) returns (r: Option<Value>)
    ensures r == SetAll(Some(data), Writes(p))
  {
    var w, paths := data, p.fieldPaths;
    for j := 0 to |paths|
      invariant SetAll(Some(data), Writes(p)) == SetAll(Some(w), Writes(p)[j..])
    {
      ghost var ws := Writes(p)[j..];
      assert ws[0] == Write(paths[j], Scalar(p.value)) && ws[1..] == Writes(p)[j + 1..];
      var next := Set(w, paths[j], match p.value case StrVal(s) => Text(s) case IntVal(n) => Number(n));
      if next.None? {
        return None;
      }
      w := next.value;
    }
    return Some(w);
  }

  method RenderWorkload(data: Value, ps: seq<Parameter>) returns (r: Option<Value>)
    ensures r == Rendered(data, ps)
  {
    if !data.Object? {
      assert Rendered(data, ps) == None;
      return None;
    }
    var w := data;
    for i := 0 to |ps|
      invariant Rendered(data, ps) == SetAll(Some(w), AllWrites(ps[i..]))
    {
      assert ps[i..][0] == ps[i] && ps[i..][1..] == ps[i + 1..];
      SetAllAppend(Some(w), Writes(ps[i]), AllWrites(ps[i + 1..]));
      var next := WriteParameter(w, ps[i]);
      if next.None? {
        return None;
      }
      w := next.value;
    }
    assert ps[|ps|..] == [];
    return Some(w);
  }

  // ---------- the order of the map does not matter ----------

  predicate Independent(p: Parameter, q: Parameter) {
    forall a, b :: a in p.fieldPaths && b in q.fieldPaths ==> Apart(a, b)
  }

  /** The declared paths of different supplied parameters do not overlap. */
  ghost predicate IndependentPaths(cp: seq<ComponentParameter>, cpv: seq<ComponentParameterValue>) {
    forall n, m, a, b | n != m && Supplied(cpv, n) && Supplied(cpv, m)
      && a in LastPaths(cp, n) && b in LastPaths(cp, m) :: Apart(a, b)
  }

  lemma {:induction false} AllWritesAppend(a: seq<Parameter>, b: seq<Parameter>)
    ensures AllWrites(a + b) == AllWrites(a) + AllWrites(b)
  {
    if a == [] {
      assert a + b == b;
    } else {
      assert (a + b)[1..] == a[1..] + b;
      AllWritesAppend(a[1..], b);
    }
  }

  lemma {:induction false} ApartFromAll(p: Parameter, a: seq<Parameter>)
    requires forall i :: 0 <= i < |a| ==> Independent(a[i], p)
    ensures AllApart(AllWrites(a), Writes(p))
  {
    if a != [] {
      ApartFromAll(p, a[1..]);
      forall i, j | 0 <= i < |AllWrites(a)| && 0 <= j < |Writes(p)|
        ensures Apart(AllWrites(a)[i].path, Writes(p)[j].path)
      {
        assert p.fieldPaths[j] in p.fieldPaths;
        if i < |Writes(a[0])| {
          assert a[0].fieldPaths[i] in a[0].fieldPaths;
        } else {
          assert AllWrites(a)[i] == AllWrites(a[1..])[i - |Writes(a[0])|];
        }
      }
    }
  }

  ghost predicate SameParameters(ps: seq<Parameter>, qs: seq<Parameter>) {
    && (forall i, j :: 0 <= i < j < |ps| ==> ps[i] != ps[j])
    && (forall i, j :: 0 <= i < j < |qs| ==> qs[i] != qs[j])
    && (forall p :: p in ps <==> p in qs)
  }

  ghost predicate PairwiseIndependent(ps: seq<Parameter>) {
    forall p, q :: p in ps && q in ps && p != q ==> Independent(p, q)
  }

  lemma {:induction false} OrderIrrelevant(t: Option<Value>, ps: seq<Parameter>, qs: seq<Parameter>)
    requires SameParameters(ps, qs) && PairwiseIndependent(qs)
    ensures SetAll(t, AllWrites(ps)) == SetAll(t, AllWrites(qs))
    decreases |ps|
  {
    if ps == [] {
      EmptyOrInhabited(qs);
      assert forall p :: p !in qs;
    } else {
      var k := PositionOfHead(ps, qs);
      SplitOffHead(ps, qs, k);
      var others := qs[..k] + qs[k + 1..];
      assert forall p :: p in others ==> p in qs;
      OrderIrrelevant(SetAll(t, Writes(ps[0])), ps[1..], others);
      HeadFirst(t, qs, k);
      SetAllAppend(t, Writes(ps[0]), AllWrites(ps[1..]));
    }
  }

  lemma EmptyOrInhabited(qs: seq<Parameter>)
    ensures qs == [] || exists p :: p in qs
  {
    if qs != [] { assert qs[0] in qs; }
  }

  lemma PositionOfHead(ps: seq<Parameter>, qs: seq<Parameter>) returns (k: nat)
    requires SameParameters(ps, qs) && ps != []
    ensures k < |qs| && qs[k] == ps[0]
  {
    assert ps[0] in ps;
    k :| k < |qs| && qs[k] == ps[0];
  }

  lemma HeadFirst(t: Option<Value>, qs: seq<Parameter>, k: nat)
    requires k < |qs| && PairwiseIndependent(qs)
    requires forall i, j :: 0 <= i < j < |qs| ==> qs[i] != qs[j]
    ensures SetAll(t, AllWrites(qs)) == SetAll(SetAll(t, Writes(qs[k])), AllWrites(qs[..k] + qs[k + 1..]))
  {
    var a, b := qs[..k], qs[k + 1..];
    assert qs == a + ([qs[k]] + b);
    forall i | 0 <= i < |a| ensures Independent(a[i], qs[k]) {
      assert a[i] == qs[i] && qs[i] in qs && qs[k] in qs;
    }
    MoveToFront(t, a, qs[k], b);
  }

  lemma MoveToFront(t: Option<Value>, a: seq<Parameter>, p: Parameter, b: seq<Parameter>)
    requires forall i :: 0 <= i < |a| ==> Independent(a[i], p)
    ensures SetAll(t, AllWrites(a + ([p] + b))) == SetAll(SetAll(t, Writes(p)), AllWrites(a + b))
  {
    var wa, wp, wb := AllWrites(a), Writes(p), AllWrites(b);
    AllWritesAppend(a, [p] + b);
    assert ([p] + b)[1..] == b;
    AllWritesAppend(a, b);
    ApartFromAll(p, a);
    BlocksCommute(t, wa, wp);
    assert wa + (wp + wb) == (wa + wp) + wb && (wp + wa) + wb == wp + (wa + wb);
    SetAllAppend(t, wa + wp, wb);
    SetAllAppend(t, wp + wa, wb);
    SetAllAppend(t, wp, wa + wb);
  }

  lemma SplitOffHead(ps: seq<Parameter>, qs: seq<Parameter>, k: nat)
    requires SameParameters(ps, qs) && ps != [] && k < |qs| && qs[k] == ps[0]
    ensures SameParameters(ps[1..], qs[..k] + qs[k + 1..])
  {
    var rest, others := ps[1..], qs[..k] + qs[k + 1..];
    forall i | 0 <= i < |others| ensures others[i] == qs[if i < k then i else i + 1] {}
    forall p ensures p in rest <==> p in others {
      if p in rest {
        assert p in ps && p != ps[0];
        var i :| 0 <= i < |qs| && qs[i] == p;
        assert others[if i < k then i else i - 1] == p;
      }
      if p in others {
        assert p in qs && p != ps[0];
      }
    }
  }

  lemma ResolutionsAgree(cp: seq<ComponentParameter>, cpv: seq<ComponentParameterValue>,
                         ps: seq<Parameter>, qs: seq<Parameter>)
    requires IsResolution(cp, cpv, ps) && IsResolution(cp, cpv, qs)
    ensures SameParameters(ps, qs)
  {
    forall p ensures p in ps <==> p in qs {
      if p in ps { ResolutionCovers(cp, cpv, ps, qs, p); }
      if p in qs { ResolutionCovers(cp, cpv, qs, ps, p); }
    }
  }

  lemma ResolutionCovers(cp: seq<ComponentParameter>, cpv: seq<ComponentParameterValue>,
                         ps: seq<Parameter>, qs: seq<Parameter>, p: Parameter)
    requires IsResolution(cp, cpv, ps) && IsResolution(cp, cpv, qs) && p in ps
    ensures p in qs
  {
    var i :| 0 <= i < |cpv| && cpv[i].name == p.name;
    var j :| 0 <= j < |qs| && qs[j].name == cpv[i].name;
    assert qs[j] == p;
  }

  /** Confluence: whatever order the map is visited in, the rendered workload is the same, or rendering
      fails in every order. */
  lemma RenderingIsConfluent(cp: seq<ComponentParameter>, cpv: seq<ComponentParameterValue>,
                             ps: seq<Parameter>, qs: seq<Parameter>, data: Value)
    requires IsResolution(cp, cpv, ps) && IsResolution(cp, cpv, qs)
    requires IndependentPaths(cp, cpv)
    ensures Rendered(data, ps) == Rendered(data, qs)
  {
    ResolutionsAgree(cp, cpv, ps, qs);
    forall p, q | p in qs && q in qs && p != q ensures Independent(p, q) {
      assert p.fieldPaths == LastPaths(cp, p.name) && q.fieldPaths == LastPaths(cp, q.name);
    }
    OrderIrrelevant(if data.Object? then Some(data) else None, ps, qs);
  }

  // ---------- what the rendered workload holds ----------

  /** Every declared path of a supplied name stands apart from every other one, those of the same name included. */
  ghost predicate StandAlone(cp: seq<ComponentParameter>, cpv: seq<ComponentParameterValue>) {
    IndependentPaths(cp, cpv)
    && forall n, a, b :: Supplied(cpv, n) && a in LastPaths(cp, n) && b in LastPaths(cp, n) && a != b ==> Apart(a, b)
  }

  lemma {:induction false} SetAllReads(v: Value, ws: seq<Write>, k: nat)
    requires k < |ws| && ws[k].path != [] && SetAll(Some(v), ws).Some?
    requires forall i :: 0 <= i < |ws| ==> Apart(ws[i].path, ws[k].path) || ws[i] == ws[k]
    ensures Get(SetAll(Some(v), ws).value, ws[k].path) == Found(ws[k].value)
    decreases |ws|
  {
    var next, rest, w := Set(v, ws[0].path, ws[0].value), ws[1..], ws[k];
    if next.None? {
      assert false;
    } else if i :| 0 <= i < |rest| && rest[i] == w {
      SetAllReads(next.value, rest, i);
    } else {
      assert k == 0 && forall i :: 0 <= i < |rest| ==> Apart(rest[i].path, w.path);
      GetAfterSet(v, w.path, w.value);
      SetAllLeaves(next.value, rest, w.path);
    }
  }

  lemma {:induction false} SetAllLeaves(v: Value, ws: seq<Write>, q: Path)
    requires SetAll(Some(v), ws).Some? && forall i :: 0 <= i < |ws| ==> Apart(ws[i].path, q)
    ensures Get(SetAll(Some(v), ws).value, q) == Get(v, q)
    decreases |ws|
  {
    if ws != [] {
      var next := Set(v, ws[0].path, ws[0].value);
      if next.None? {
        assert false;
      } else {
        SetLeavesApart(v, ws[0].path, ws[0].value, q);
        SetAllLeaves(next.value, ws[1..], q);
      }
    }
  }

  lemma {:induction false} WritesAre(ps: seq<Parameter>, i: nat)
    requires i < |AllWrites(ps)|
    ensures exists p :: p in ps && AllWrites(ps)[i].path in p.fieldPaths && AllWrites(ps)[i].value == Scalar(p.value)
  {
    if i < |Writes(ps[0])| {
      assert AllWrites(ps)[i] == Writes(ps[0])[i] && ps[0] in ps;
    } else {
      WritesAre(ps[1..], i - |Writes(ps[0])|);
      assert AllWrites(ps)[i] == AllWrites(ps[1..])[i - |Writes(ps[0])|];
    }
  }

  lemma {:induction false} IsWritten(ps: seq<Parameter>, p: Parameter, path: Path) returns (k: nat)
    requires p in ps && path in p.fieldPaths
    ensures k < |AllWrites(ps)| && AllWrites(ps)[k] == Write(path, Scalar(p.value))
  {
    if p == ps[0] {
      var j :| 0 <= j < |p.fieldPaths| && p.fieldPaths[j] == path;
      k := j;
    } else {
      var rest := IsWritten(ps[1..], p, path);
      k := |Writes(ps[0])| + rest;
    }
  }

  /** Writes at paths that stand apart, or coincide, all succeed exactly when none of them meets an obstacle at first. */
  lemma {:induction false} SetAllSucceedsExactlyWhen(v: Value, ws: seq<Write>)
    requires forall i, j :: 0 <= i < |ws| && 0 <= j < |ws| ==> Apart(ws[i].path, ws[j].path) || ws[i].path == ws[j].path
    ensures SetAll(Some(v), ws).Some? <==> forall i :: 0 <= i < |ws| ==> Passable(v, ws[i].path)
    decreases |ws|
  {
    if ws != [] {
      var next, rest := Set(v, ws[0].path, ws[0].value), ws[1..];
      SetSucceedsExactlyWhen(v, ws[0].path, ws[0].value);
      if next.Some? {
        SetAllSucceedsExactlyWhen(next.value, rest);
        forall i | 0 <= i < |rest| ensures Passable(next.value, rest[i].path) <==> Passable(v, ws[i + 1].path) {
          PassablePastSet(v, ws[0].path, ws[0].value, rest[i].path);
        }
        forall i | 0 < i < |ws| ensures Passable(v, ws[i].path) <==> Passable(next.value, rest[i - 1].path) {
          assert rest[i - 1] == ws[i];
        }
      }
    }
  }

  lemma ResolvedWrite(cp: seq<ComponentParameter>, cpv: seq<ComponentParameterValue>, ps: seq<Parameter>, i: nat)
    requires IsResolution(cp, cpv, ps) && i < |AllWrites(ps)|
    ensures exists name :: Supplied(cpv, name) && AllWrites(ps)[i].path in LastPaths(cp, name)
                        && AllWrites(ps)[i].value == Scalar(LastValue(cpv, name))
  {
    WritesAre(ps, i);
    var p :| p in ps && AllWrites(ps)[i].path in p.fieldPaths && AllWrites(ps)[i].value == Scalar(p.value);
    assert Supplied(cpv, p.name);
  }

  lemma PathIsWritten(cp: seq<ComponentParameter>, cpv: seq<ComponentParameterValue>, ps: seq<Parameter>, name: string, path: Path) returns (k: nat)
    requires IsResolution(cp, cpv, ps) && Supplied(cpv, name) && path in LastPaths(cp, name)
    ensures k < |AllWrites(ps)| && AllWrites(ps)[k] == Write(path, Scalar(LastValue(cpv, name)))
  {
    var j :| 0 <= j < |cpv| && cpv[j].name == name;
    var m :| 0 <= m < |ps| && ps[m].name == cpv[j].name;
    k := IsWritten(ps, ps[m], path);
  }

  ghost predicate NothingInTheWay(cp: seq<ComponentParameter>, cpv: seq<ComponentParameterValue>, data: Value) {
    forall name, path :: Supplied(cpv, name) && path in LastPaths(cp, name) ==> Passable(data, path)
  }

  lemma WritesPass(cp: seq<ComponentParameter>, cpv: seq<ComponentParameterValue>, ps: seq<Parameter>, data: Value)
    requires IsResolution(cp, cpv, ps)
    ensures NothingInTheWay(cp, cpv, data) <==> forall i :: 0 <= i < |AllWrites(ps)| ==> Passable(data, AllWrites(ps)[i].path)
  {
    var ws := AllWrites(ps);
    if NothingInTheWay(cp, cpv, data) {
      forall i | 0 <= i < |ws| ensures Passable(data, ws[i].path) {
        ResolvedWrite(cp, cpv, ps, i);
      }
    } else {
      var name, path :| Supplied(cpv, name) && path in LastPaths(cp, name) && !Passable(data, path);
      var k := PathIsWritten(cp, cpv, ps, name, path);
      assert !Passable(data, ws[k].path);
    }
  }

  lemma WritesStandAlone(cp: seq<ComponentParameter>, cpv: seq<ComponentParameterValue>, ps: seq<Parameter>, i: nat, j: nat)
    requires IsResolution(cp, cpv, ps) && StandAlone(cp, cpv) && i < |AllWrites(ps)| && j < |AllWrites(ps)|
    ensures Apart(AllWrites(ps)[i].path, AllWrites(ps)[j].path) || AllWrites(ps)[i].path == AllWrites(ps)[j].path
  {
    ResolvedWrite(cp, cpv, ps, i);
    ResolvedWrite(cp, cpv, ps, j);
  }

  /** Rendering fails exactly when the template is no object, or has something that is no object in the way of a path. */
  lemma RenderingSucceedsExactlyWhen(cp: seq<ComponentParameter>, cpv: seq<ComponentParameterValue>, ps: seq<Parameter>, data: Value)
    requires IsResolution(cp, cpv, ps) && StandAlone(cp, cpv)
    ensures Rendered(data, ps).Some? <==> data.Object? && NothingInTheWay(cp, cpv, data)
  {
    var ws := AllWrites(ps);
    forall i, j | 0 <= i < |ws| && 0 <= j < |ws| ensures Apart(ws[i].path, ws[j].path) || ws[i].path == ws[j].path {
      WritesStandAlone(cp, cpv, ps, i, j);
    }
    if data.Object? {
      SetAllSucceedsExactlyWhen(data, ws);
      WritesPass(cp, cpv, ps, data);
    } else {
      SetAllOfNothing(ws);
    }
  }

  lemma {:induction false} SetAllOfNothing(ws: seq<Write>)
    ensures SetAll(None, ws) == None
  {
  }

  /** At each declared path of a supplied name, the rendered workload holds the last value supplied under that name: a
      text for a string, a number for an integer. */
  lemma RenderedHoldsTheValues(cp: seq<ComponentParameter>, cpv: seq<ComponentParameterValue>, ps: seq<Parameter>, data: Value,
                               name: string, path: Path)
    requires IsResolution(cp, cpv, ps) && StandAlone(cp, cpv) && Rendered(data, ps).Some?
    requires Supplied(cpv, name) && path in LastPaths(cp, name) && path != []
    ensures Get(Rendered(data, ps).value, path)
         == Found(match LastValue(cpv, name) case StrVal(s) => Text(s) case IntVal(n) => Number(n))
  {
    var ws := AllWrites(ps);
    var k := PathIsWritten(cp, cpv, ps, name, path);
    forall i | 0 <= i < |ws| ensures Apart(ws[i].path, path) || ws[i] == ws[k] {
      ResolvedWrite(cp, cpv, ps, i);
      var other :| Supplied(cpv, other) && ws[i].path in LastPaths(cp, other) && ws[i].value == Scalar(LastValue(cpv, other));
    }
    SetAllReads(data, ws, k);
  }

  /** And every path that stands apart from all of those reads as in the template. */
  lemma RenderedKeepsTheRest(cp: seq<ComponentParameter>, cpv: seq<ComponentParameterValue>, ps: seq<Parameter>, data: Value, q: Path)
    requires IsResolution(cp, cpv, ps) && Rendered(data, ps).Some?
    requires forall name, path :: Supplied(cpv, name) && path in LastPaths(cp, name) ==> Apart(path, q)
    ensures Get(Rendered(data, ps).value, q) == Get(data, q)
  {
    var ws := AllWrites(ps);
    forall i | 0 <= i < |ws| ensures Apart(ws[i].path, q) {
      ResolvedWrite(cp, cpv, ps, i);
    }
    SetAllLeaves(data, ws, q);
  }

  /** Without independent paths it is not: two parameters on overlapping paths render two workloads. */
  lemma OverlapIsNotConfluent(p: Path, q: Path)
    requires !Apart(p, q)
    ensures var a, b := Parameter("a", IntVal(0), [p]), Parameter("b", IntVal(1), [q]);
            var c, d := Parameter("a", IntVal(1), [p]), Parameter("b", IntVal(0), [q]);
            || Rendered(Object(map[]), [a, b]) != Rendered(Object(map[]), [b, a])
            || Rendered(Object(map[]), [c, d]) != Rendered(Object(map[]), [d, c])
  {
    PairRendered(Parameter("a", IntVal(0), [p]), p, Parameter("b", IntVal(1), [q]), q);
    PairRendered(Parameter("b", IntVal(1), [q]), q, Parameter("a", IntVal(0), [p]), p);
    PairRendered(Parameter("a", IntVal(1), [p]), p, Parameter("b", IntVal(0), [q]), q);
    PairRendered(Parameter("b", IntVal(0), [q]), q, Parameter("a", IntVal(1), [p]), p);
    if p <= q { OverlapIsOrderDependent(p, q); } else { OverlapIsOrderDependent(q, p); }
  }

  lemma PairRendered(a: Parameter, p: Path, b: Parameter, q: Path)
    requires a.fieldPaths == [p] && b.fieldPaths == [q]
    ensures Rendered(Object(map[]), [a, b]) == Then(Set(Object(map[]), p, Scalar(a.value)), q, Scalar(b.value))
  {
    assert Writes(a) == [Write(p, Scalar(a.value))] && Writes(b) == [Write(q, Scalar(b.value))];
    assert [a, b][1..] == [b] && AllWrites([b]) == Writes(b) + AllWrites([]);
    var ws := AllWrites([a, b]);
    assert ws == [Write(p, Scalar(a.value)), Write(q, Scalar(b.value))];
    assert ws[1..] == [Write(q, Scalar(b.value))] && ws[1..][1..] == [];
    assert AllWrites([a, b]) == Writes(a) + AllWrites([b]);
    var s := Set(Object(map[]), p, Scalar(a.value));
    assert SetAll(Some(Object(map[])), ws) == SetAll(s, ws[1..]);
    if s.Some? {
      assert SetAll(s, ws[1..]) == SetAll(Set(s.value, q, Scalar(b.value)), []);
    }
  }
}
