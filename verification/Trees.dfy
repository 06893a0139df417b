/** Rendered and stored objects as the trees that field paths lead into. */
module Trees {
  import opened Wrappers
  import opened Kube
  import opened Headers
  import opened FieldPaths
  import Cluster

  const RESERVED: set<string> := {"apiVersion", "kind", "metadata"}

  function TreeOf(k: Key, b: Cluster.Body): Value {
    Object(b.content[
      "apiVersion" := Text(k.apiVersion)][
      "kind" := Text(k.kind)][
      "metadata" := Object(map[
        "name" := Text(k.name),
        "labels" := TextsValue(b.labels),
        "annotations" := TextsValue(b.annotations),
        "ownerReferences" := OwnersValue(b.owner)])])
  }

  /** What is read back from a tree. */
  function BodyOf(v: Value): Cluster.Body {
    Cluster.Body(OwnerAt(v), TextsAt(v, LABELS), TextsAt(v, ANNOTATIONS),
                 if v.Object? then v.fields - RESERVED else map[])
  }

  lemma WalkTwo(v: Value, a: string, b: string)
    requires v.Object? && a in v.fields && v.fields[a].Object?
    ensures Walk(v, [a, b]) == if b in v.fields[a].fields then Found(v.fields[a].fields[b]) else NotFound
  {
    assert [a, b][1..] == [b] && [b][1..] == [];
    var inner := v.fields[a];
    assert Walk(v, [a, b]) == Walk(inner, [b]);
  }

  lemma WalkOne(v: Value, a: string)
    requires v.Object?
    ensures Walk(v, [a]) == if a in v.fields then Found(v.fields[a]) else NotFound
  {
    assert [a][1..] == [];
  }

  lemma TextsReadBack(m: map<string, string>)
    ensures TextsValue(m).Object? && AllTexts(TextsValue(m).fields)
    ensures (map name | name in TextsValue(m).fields :: TextsValue(m).fields[name].text) == m
  {
  }

  lemma OwnerReadsBack(owner: Option<string>)
    ensures OwnersValue(owner).List? && ControllerOf(OwnersValue(owner).items) == owner
  {
    if owner.Some? {
      WalkOne(OwnersValue(owner).items[0], "uid");
    }
  }

  /** Nothing of an object's key and metadata is lost on the way into its tree and back. */
  lemma ReadsBack(k: Key, b: Cluster.Body)
    ensures KeyOf(TreeOf(k, b)) == k
    ensures BodyOf(TreeOf(k, b)) == b.(content := b.content - RESERVED)
  {
    var v := TreeOf(k, b);
    WalkOne(v, "apiVersion");
    WalkOne(v, "kind");
    WalkTwo(v, "metadata", "name");
    WalkTwo(v, "metadata", "labels");
    WalkTwo(v, "metadata", "annotations");
    WalkTwo(v, "metadata", "ownerReferences");
    TextsReadBack(b.labels);
    TextsReadBack(b.annotations);
    OwnerReadsBack(b.owner);
    assert v.fields - RESERVED == b.content - RESERVED;
  }

  // ---------- fills that change a header ----------

  lemma PutTwo(v: Value, a: string, b: string, x: Value)
    requires v.Object? && a in v.fields && v.fields[a].Object?
    ensures Put(v, [a, b], x) == Some(Object(v.fields[a := Object(v.fields[a].fields[b := x])]))
  {
    assert [a, b][1..] == [b] && [b][1..] == [];
    var inner := v.fields[a];
    assert Put(Child(inner, b), [], x) == Some(x);
    assert Put(inner, [b], x) == InField(inner.fields, b, Some(x)) == Some(Object(inner.fields[b := x]));
  }

  /** A value put in metadata leaves the rest of the header. */
  lemma FillMetadata(k: Key, b: Cluster.Body, name: string, x: Value) returns (v: Value)
    requires !x.List?
    ensures FillAll(TreeOf(k, b), [["metadata", name]], x) == Some(v) && Get(v, ["metadata", name]) == Found(x)
    ensures Get(v, API_VERSION) == Get(TreeOf(k, b), API_VERSION) && Get(v, KIND) == Get(TreeOf(k, b), KIND)
    ensures forall other :: other != name ==> Get(v, ["metadata", other]) == Get(TreeOf(k, b), ["metadata", other])
  {
    var t := TreeOf(k, b);
    var p: Path := ["metadata", name];
    var paths: seq<Path> := [p];
    PutTwo(t, "metadata", name, x);
    v := Put(t, p, x).value;
    assert FillOne(t, p, x) == Some(v);
    assert paths[1..] == [];
    GetAfterSet(t, p, x);
    SetLeavesApart(t, p, x, API_VERSION);
    SetLeavesApart(t, p, x, KIND);
    forall other | other != name ensures Get(v, ["metadata", other]) == Get(t, ["metadata", other]) {
      assert p[1] != ["metadata", other][1];
      SetLeavesApart(t, p, x, ["metadata", other]);
    }
  }

  /** An input that fills metadata.labels from an object replaces every label, the controller's included. */
  lemma FillReplacesLabels(k: Key, b: Cluster.Body, fields: map<string, Value>) returns (v: Value)
    ensures FillAll(TreeOf(k, b), [LABELS], Object(fields)) == Some(v)
    ensures KeyOf(v) == k && OwnerAt(v) == b.owner && TextsAt(v, ANNOTATIONS) == b.annotations
    ensures TextsAt(v, LABELS) == if AllTexts(fields) then map name | name in fields :: fields[name].text else map[]
  {
    v := FillMetadata(k, b, "labels", Object(fields));
    ReadsBack(k, b);
    MetadataReadsAlike(v, TreeOf(k, b));
  }

  lemma MetadataReadsAlike(v: Value, t: Value)
    requires Get(v, API_VERSION) == Get(t, API_VERSION) && Get(v, KIND) == Get(t, KIND)
    requires forall other :: other != "labels" ==> Get(v, ["metadata", other]) == Get(t, ["metadata", other])
    ensures KeyOf(v) == KeyOf(t) && OwnerAt(v) == OwnerAt(t) && TextsAt(v, ANNOTATIONS) == TextsAt(t, ANNOTATIONS)
  {
    assert "name" != "labels" && "annotations" != "labels" && "ownerReferences" != "labels" by {
      assert |"name"| == 4 && |"labels"| == 6 && |"annotations"| == 11 && |"ownerReferences"| == 15;
    }
    assert Get(v, NAME) == Get(t, NAME);
    assert Get(v, ANNOTATIONS) == Get(t, ANNOTATIONS);
    assert Get(v, OWNERS) == Get(t, OWNERS);
  }

  /** An input that fills metadata.name from a string renames the object. */
  lemma FillRenames(k: Key, b: Cluster.Body, name: string) returns (v: Value)
    ensures FillAll(TreeOf(k, b), [NAME], Text(name)) == Some(v) && KeyOf(v) == k.(name := name)
  {
    v := FillMetadata(k, b, "name", Text(name));
    ReadsBack(k, b);
  }
}
