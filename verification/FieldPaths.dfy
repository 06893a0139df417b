/** Unstructured objects as trees, with the get and set on field-only paths that render.go relies on. */
module FieldPaths {
  import opened Wrappers

  datatype Value =
    | Null
    | Text(text: string)
    | Number(n: int)
    | Bool(b: bool)
    | List(items: seq<Value>)
    | Object(fields: map<string, Value>)

  type Path = seq<string>

  datatype Finding = Found(value: Value) | NotFound | NotAnObject

  function Walk(v: Value, p: Path): Finding
    decreases |p|
  {
    if p == [] then Found(v)
    else if !v.Object? then NotAnObject
    else if p[0] !in v.fields then NotFound
    else Walk(v.fields[p[0]], p[1..])
  }

  /** GetValue: the empty path finds a null. */
  function Get(v: Value, p: Path): Finding {
    if p == [] then Found(Null) else Walk(v, p)
  }

  function Child(v: Value, name: string): Value
    requires v.Object?
  {
    if name in v.fields then v.fields[name] else Object(map[])
  }

  function InField(f: map<string, Value>, name: string, v: Option<Value>): Option<Value> {
    if v.None? then None else Some(Object(f[name := v.value]))
  }

  function Put(v: Value, p: Path, x: Value): Option<Value>
    decreases |p|
  {
    if p == [] then Some(x)
    else if !v.Object? then None
    else InField(v.fields, p[0], Put(Child(v, p[0]), p[1..], x))
  }

  /** SetValue: missing objects on the way are created, anything else on the way is an error, and the
      empty path sets nothing. */
  function Set(v: Value, p: Path, x: Value): Option<Value> {
    if p == [] then Some(v) else Put(v, p, x)
  }

  datatype Write = Write(path: Path, value: Value)

  /** Writes in sequence; the first failure is final. */
  function SetAll(v: Option<Value>, ws: seq<Write>): Option<Value>
    decreases |ws|
  {
    if ws == [] || v.None? then v else SetAll(Set(v.value, ws[0].path, ws[0].value), ws[1..])
  }

  predicate Apart(p: Path, q: Path) {
    p == [] || q == [] || (!(p <= q) && !(q <= p))
  }

  predicate AllApart(a: seq<Write>, b: seq<Write>) {
    forall i, j :: 0 <= i < |a| && 0 <= j < |b| ==> Apart(a[i].path, b[j].path)
  }

  function Then(v: Option<Value>, p: Path, x: Value): Option<Value> {
    if v.None? then None else Set(v.value, p, x)
  }

  // ---------- what a write does and does not touch ----------

  lemma {:induction false} GetAfterPut(v: Value, p: Path, x: Value)
    requires Put(v, p, x).Some?
    ensures Walk(Put(v, p, x).value, p) == Found(x)
    decreases |p|
  {
    if p != [] {
      GetAfterPut(Child(v, p[0]), p[1..], x);
    }
  }

  /** Reading back a path that was just set finds the value set. */
  lemma GetAfterSet(v: Value, p: Path, x: Value)
    requires p != [] && Set(v, p, x).Some?
    ensures Get(Set(v, p, x).value, p) == Found(x)
  {
    GetAfterPut(v, p, x);
  }

  lemma PutInSameField(f: map<string, Value>, c: Value, p: Path, x: Value)
    requires p != []
    ensures Put(Object(f[p[0] := c]), p, x) == InField(f, p[0], Put(c, p[1..], x))
  {
    var d := Put(c, p[1..], x);
    if d.Some? {
      assert f[p[0] := c][p[0] := d.value] == f[p[0] := d.value];
    }
  }

  lemma PutInOtherField(f: map<string, Value>, h: string, c: Value, p: Path, x: Value)
    requires p != [] && p[0] != h
    ensures Put(Object(f[h := c]), p, x) == InField(f[h := c], p[0], Put(Child(Object(f), p[0]), p[1..], x))
  {
  }

  lemma {:induction false} PutsCommute(v: Value, p: Path, x: Value, q: Path, y: Value)
    requires !(p <= q) && !(q <= p)
    ensures Then(Put(v, p, x), q, y) == Then(Put(v, q, y), p, x)
    decreases |p|
  {
    if v.Object? {
      var f, h, k := v.fields, p[0], q[0];
      var a, b := Put(Child(v, h), p[1..], x), Put(Child(v, k), q[1..], y);
      if h != k {
        if a.Some? { PutInOtherField(f, h, a.value, q, y); }
        if b.Some? { PutInOtherField(f, k, b.value, p, x); }
        if a.Some? && b.Some? {
          assert f[h := a.value][k := b.value] == f[k := b.value][h := a.value];
        }
      } else {
        assert p == [h] + p[1..] && q == [h] + q[1..];
        PutsCommute(Child(v, h), p[1..], x, q[1..], y);
        if a.Some? { PutInSameField(f, a.value, q, y); }
        if b.Some? { PutInSameField(f, b.value, p, x); }
      }
    }
  }

  /** Two writes on paths neither of which extends the other commute, failures included. */
  lemma SetsCommute(v: Value, p: Path, x: Value, q: Path, y: Value)
    requires Apart(p, q)
    ensures Then(Set(v, p, x), q, y) == Then(Set(v, q, y), p, x)
  {
    if p != [] && q != [] {
      PutsCommute(v, p, x, q, y);
    }
  }

  lemma {:induction false} PutOnBlank(p: Path, x: Value)
    requires p != []
    ensures Put(Object(map[]), p, x).Some?
    decreases |p|
  {
    if |p| > 1 { PutOnBlank(p[1..], x); }
  }

  /** A scalar at p and a value at an extension of p: either order leaves its own mark. */
  lemma {:induction false} OverlapIsOrderDependent(p: Path, q: Path)
    requires p != [] && p <= q
    ensures Then(Put(Object(map[]), p, Number(0)), q, Number(1))
         != Then(Put(Object(map[]), q, Number(1)), p, Number(0))
    decreases |p|
  {
    PutOnBlank(p, Number(0));
    PutOnBlank(q, Number(1));
    var left := Put(Object(map[]), p, Number(0)).value;
    var right := Put(Object(map[]), q, Number(1)).value;
    if |p| > 1 {
      OverlapIsOrderDependent(p[1..], q[1..]);
      PutOnBlank(p[1..], Number(0));
      PutOnBlank(q[1..], Number(1));
    } else {
      GetAfterPut(right, p, Number(0));
      assert left.fields[p[0]] == Number(0);
      if |q| == 1 {
        PutInSameField(map[], Number(0), q, Number(1));
      } else {
        assert Put(left, q, Number(1)) == None;
      }
    }
  }

  ghost predicate AlwaysCommute(p: Path, q: Path) {
    forall v: Value, x: Value, y: Value :: Then(Set(v, p, x), q, y) == Then(Set(v, q, y), p, x)
  }

  /** Exactly the paths that stand apart can be written in either order. */
  lemma CommuteExactlyWhenApart(p: Path, q: Path)
    ensures AlwaysCommute(p, q) <==> Apart(p, q)
  {
    if Apart(p, q) {
      forall v: Value, x: Value, y: Value { SetsCommute(v, p, x, q, y); }
    } else if p <= q {
      OverlapIsOrderDependent(p, q);
      assert Then(Set(Object(map[]), p, Number(0)), q, Number(1))
          != Then(Set(Object(map[]), q, Number(1)), p, Number(0));
    } else {
      OverlapIsOrderDependent(q, p);
      assert Then(Set(Object(map[]), q, Number(0)), p, Number(1))
          != Then(Set(Object(map[]), p, Number(1)), q, Number(0));
    }
  }

  // ---------- which writes succeed ----------

  /** Nothing but objects is in the way of a write; what is missing is no obstacle. */
  predicate Passable(v: Value, p: Path) {
    forall n :: 0 <= n < |p| && Walk(v, p[..n]).Found? ==> Walk(v, p[..n]).value.Object?
  }

  lemma PassableStep(v: Value, p: Path)
    requires p != []
    ensures Passable(v, p) <==> v.Object? && (p[0] in v.fields ==> Passable(v.fields[p[0]], p[1..]))
  {
    assert p[..0] == [];
    if v.Object? && p[0] in v.fields {
      var c := v.fields[p[0]];
      forall n | 0 < n < |p| ensures Walk(v, p[..n]) == Walk(c, p[1..][..n - 1]) {
        assert p[..n][1..] == p[1..][..n - 1];
      }
      if Passable(v, p) {
        forall m | 0 <= m < |p[1..]| && Walk(c, p[1..][..m]).Found? ensures Walk(c, p[1..][..m]).value.Object? {
          assert Walk(v, p[..m + 1]) == Walk(c, p[1..][..m]);
        }
      }
    }
  }

  lemma {:induction false} PutSucceedsExactlyWhen(v: Value, p: Path, x: Value)
    ensures Put(v, p, x).Some? <==> Passable(v, p)
    decreases |p|
  {
    if p != [] {
      PassableStep(v, p);
      if v.Object? {
        PutSucceedsExactlyWhen(Child(v, p[0]), p[1..], x);
        if p[0] !in v.fields { BlankIsPassable(p[1..]); }
      }
    }
  }

  lemma BlankIsPassable(p: Path)
    ensures Passable(Object(map[]), p)
  {
    if p != [] { PassableStep(Object(map[]), p); }
  }

  /** A write fails exactly when something that is no object is in its way. */
  lemma SetSucceedsExactlyWhen(v: Value, p: Path, x: Value)
    ensures Set(v, p, x).Some? <==> Passable(v, p)
  {
    PutSucceedsExactlyWhen(v, p, x);
  }

  lemma {:induction false} PassablePastPut(v: Value, p: Path, x: Value, q: Path)
    requires Put(v, p, x).Some? && !(p <= q) && !(q <= p)
    ensures Passable(Put(v, p, x).value, q) <==> Passable(v, q)
    decreases |p|
  {
    var w := Put(v, p, x).value;
    PassableStep(v, q);
    PassableStep(w, q);
    if p[0] == q[0] {
      assert p == [p[0]] + p[1..] && q == [q[0]] + q[1..];
      PassablePastPut(Child(v, p[0]), p[1..], x, q[1..]);
      if p[0] !in v.fields { BlankIsPassable(q[1..]); }
    }
  }

  lemma PassablePastSet(v: Value, p: Path, x: Value, q: Path)
    requires Set(v, p, x).Some? && (Apart(p, q) || p == q)
    ensures Passable(Set(v, p, x).value, q) <==> Passable(v, q)
  {
    if p == q {
      SetSucceedsExactlyWhen(v, p, x);
      if p != [] { PutTwice(v, p, x); }
    } else if p != [] && q != [] {
      PassablePastPut(v, p, x, q);
    }
  }

  lemma {:induction false} PutTwice(v: Value, p: Path, x: Value)
    requires p != [] && Put(v, p, x).Some?
    ensures Passable(Put(v, p, x).value, p)
    decreases |p|
  {
    PassableStep(Put(v, p, x).value, p);
    if |p| > 1 { PutTwice(Child(v, p[0]), p[1..], x); }
  }

  // ---------- what a write leaves as it was ----------

  lemma {:induction false} WalkPastPut(v: Value, p: Path, x: Value, q: Path)
    requires Put(v, p, x).Some? && !(p <= q) && !(q <= p)
    ensures Walk(Put(v, p, x).value, q) == Walk(v, q)
    decreases |p|
  {
    if p[0] == q[0] {
      assert p == [p[0]] + p[1..] && q == [q[0]] + q[1..];
      WalkPastPut(Child(v, p[0]), p[1..], x, q[1..]);
    }
  }

  /** A write leaves every path that stands apart from its own as it was. */
  lemma SetLeavesApart(v: Value, p: Path, x: Value, q: Path)
    requires Apart(p, q) && Set(v, p, x).Some?
    ensures Get(Set(v, p, x).value, q) == Get(v, q)
  {
    if p != [] && q != [] {
      WalkPastPut(v, p, x, q);
    }
  }

  /** On a blank object a write at p shows at every path that overlaps p. */
  lemma {:induction false} MarkOnBlank(p: Path, q: Path, x: Value)
    requires p != [] && q != [] && (p <= q || q <= p) && Put(Object(map[]), p, x).Some?
    ensures Walk(Put(Object(map[]), p, x).value, q) != NotFound || (|p| < |q| && x.Object?)
    decreases |p|
  {
    assert p[0] == q[0];
    if |p| > 1 && |q| > 1 {
      assert p[1..] <= q[1..] || q[1..] <= p[1..];
      MarkOnBlank(p[1..], q[1..], x);
    }
  }

  /** Whatever is written at p, and into whatever object, q reads as before. */
  ghost predicate AlwaysLeaves(p: Path, q: Path) {
    forall v: Value, x: Value :: Set(v, p, x).Some? ==> Get(Set(v, p, x).value, q) == Get(v, q)
  }

  /** Writes at p leave q alone exactly when the two stand apart. */
  lemma LeavesExactlyWhenApart(p: Path, q: Path)
    ensures AlwaysLeaves(p, q) <==> Apart(p, q)
  {
    if Apart(p, q) {
      forall v: Value, x: Value | Set(v, p, x).Some? ensures Get(Set(v, p, x).value, q) == Get(v, q) {
        SetLeavesApart(v, p, x, q);
      }
    } else {
      PutOnBlank(p, Number(0));
      MarkOnBlank(p, q, Number(0));
      assert Get(Set(Object(map[]), p, Number(0)).value, q) != Get(Object(map[]), q);
    }
  }

  // ---------- filling ----------

  /** One target path; a list is appended to what is there, anything else replaces it. */
  function FillOne(obj: Value, p: Path, val: Value): Option<Value> {
    if !val.List? then Set(obj, p, val)
    else
      match Get(obj, p)
      case NotFound => Set(obj, p, val)
      case Found(List(items)) => Set(obj, p, List(items + val.items))
      case _ => None
  }

  function FillAll(obj: Value, paths: seq<Path>, val: Value): Option<Value>
    decreases |paths|
  {
    if paths == [] then Some(obj)
    else
      var next := FillOne(obj, paths[0], val);
      if next.None? then None else FillAll(next.value, paths[1..], val)
  }

  /** Filling fails exactly when something that is no object is in the way, or a list is to go over something that is no
      list; a list may well go where nothing is yet. */
  lemma FillSucceedsExactlyWhen(obj: Value, p: Path, val: Value)
    ensures FillOne(obj, p, val).Some? <==> Passable(obj, p) && (val.List? && Get(obj, p).Found? ==> Get(obj, p).value.List?)
  {
    SetSucceedsExactlyWhen(obj, p, val);
    if p != [] { PassableExactlyWhen(obj, p); }
    if Get(obj, p).Found? && Get(obj, p).value.List? && val.List? {
      SetSucceedsExactlyWhen(obj, p, List(Get(obj, p).value.items + val.items));
    }
  }

  lemma {:induction false} PassableExactlyWhen(v: Value, p: Path)
    requires p != []
    ensures Passable(v, p) <==> !Walk(v, p).NotAnObject?
    decreases |p|
  {
    PassableStep(v, p);
    if |p| > 1 && v.Object? && p[0] in v.fields { PassableExactlyWhen(v.fields[p[0]], p[1..]); }
  }

  /** Every one of these paths stands apart from q. */
  predicate AllAvoid(paths: seq<Path>, q: Path) {
    forall i :: 0 <= i < |paths| ==> Apart(paths[i], q)
  }

  lemma {:induction false} FillLeavesApart(obj: Value, paths: seq<Path>, val: Value, q: Path)
    requires AllAvoid(paths, q) && FillAll(obj, paths, val).Some?
    ensures Get(FillAll(obj, paths, val).value, q) == Get(obj, q)
    decreases |paths|
  {
    if paths != [] {
      var x := match Get(obj, paths[0])
               case Found(List(items)) => if val.List? then List(items + val.items) else val
               case _ => val;
      assert FillOne(obj, paths[0], val) == Set(obj, paths[0], x);
      SetLeavesApart(obj, paths[0], x, q);
      FillLeavesApart(FillOne(obj, paths[0], val).value, paths[1..], val, q);
    }
  }

  /** Whatever value fills these paths, and into whatever object, q reads as before. */
  ghost predicate FillsLeave(paths: seq<Path>, q: Path) {
    forall obj: Value, val: Value :: FillAll(obj, paths, val).Some? ==> Get(FillAll(obj, paths, val).value, q) == Get(obj, q)
  }

  /** Filling a path leaves q alone exactly when the two stand apart. */
  lemma FillLeavesExactlyWhenApart(p: Path, q: Path)
    ensures FillsLeave([p], q) <==> Apart(p, q)
  {
    if Apart(p, q) {
      forall obj: Value, val: Value | FillAll(obj, [p], val).Some?
        ensures Get(FillAll(obj, [p], val).value, q) == Get(obj, q)
      {
        FillLeavesApart(obj, [p], val, q);
      }
    } else {
      PutOnBlank(p, Number(0));
      MarkOnBlank(p, q, Number(0));
      var blank := Object(map[]);
      assert [p][1..] == [];
      assert FillAll(blank, [p], Number(0)) == Set(blank, p, Number(0));
      assert Get(FillAll(blank, [p], Number(0)).value, q) != Get(blank, q);
    }
  }

  // ---------- blocks of writes ----------

  lemma {:induction false} SetAllAppend(v: Option<Value>, a: seq<Write>, b: seq<Write>)
    ensures SetAll(v, a + b) == SetAll(SetAll(v, a), b)
    decreases |a|
  {
    if a == [] {
      assert a + b == b;
    } else if v.Some? {
      assert (a + b)[1..] == a[1..] + b;
      SetAllAppend(Set(v.value, a[0].path, a[0].value), a[1..], b);
    }
  }

  lemma {:induction false} WritePastBlock(v: Option<Value>, w: Write, b: seq<Write>)
    requires AllApart([w], b)
    ensures SetAll(v, [w] + b) == SetAll(v, b + [w])
    decreases |b|
  {
    if b == [] {
      assert [w] + b == b + [w];
    } else if v.Some? {
      var rest := b[1..];
      assert Apart([w][0].path, b[0].path);
      SetsCommute(v.value, w.path, w.value, b[0].path, b[0].value);
      var after := Set(v.value, b[0].path, b[0].value);
      forall j | 0 <= j < |rest| ensures Apart([w][0].path, rest[j].path) { assert rest[j] == b[j + 1]; }
      WritePastBlock(after, w, rest);
      assert (b + [w])[1..] == rest + [w];
      assert ([w] + b)[1..] == b && ([w] + rest)[1..] == rest;
      assert SetAll(after, [w] + rest) == SetAll(Then(after, w.path, w.value), rest);
    }
  }

  lemma HeadPastBlock(v: Option<Value>, w: Write, rest: seq<Write>, b: seq<Write>)
    requires AllApart([w], b)
    ensures SetAll(SetAll(v, [w]), b + rest) == SetAll(v, b + ([w] + rest))
  {
    SetAllAppend(v, [w], b + rest);
    SetAllAppend(v, [w] + b, rest);
    WritePastBlock(v, w, b);
    SetAllAppend(v, b + [w], rest);
    assert [w] + (b + rest) == ([w] + b) + rest && (b + [w]) + rest == b + ([w] + rest);
  }

  lemma {:induction false} BlocksCommute(v: Option<Value>, a: seq<Write>, b: seq<Write>)
    requires AllApart(a, b)
    ensures SetAll(v, a + b) == SetAll(v, b + a)
    decreases |a|
  {
    if a == [] {
      assert a + b == b && b + a == b;
    } else {
      var w, rest := a[0], a[1..];
      assert a == [w] + rest && a + b == [w] + (rest + b);
      forall i, j | 0 <= i < |rest| && 0 <= j < |b| ensures Apart(rest[i].path, b[j].path) {
        assert rest[i] == a[i + 1];
      }
      SetAllAppend(v, [w], rest + b);
      BlocksCommute(SetAll(v, [w]), rest, b);
      HeadPastBlock(v, w, rest, b);
    }
  }
}
