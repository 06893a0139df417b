/** What the API server and the controllers read off an unstructured object: its type, name, labels,
    annotations and owner. */
module Headers {
  import opened Wrappers
  import opened Kube
  import opened FieldPaths

  const API_VERSION: Path := ["apiVersion"]
  const KIND: Path := ["kind"]
  const NAME: Path := ["metadata", "name"]
  const LABELS: Path := ["metadata", "labels"]
  const ANNOTATIONS: Path := ["metadata", "annotations"]
  const OWNERS: Path := ["metadata", "ownerReferences"]

  /** The paths an object is known by. */
  const KEY_PATHS: seq<Path> := [API_VERSION, KIND, NAME]

  /** The paths of the stamp that applying only once compares. */
  const STAMP_PATHS: seq<Path> := [LABELS, ANNOTATIONS]

  /** A nested string; "" when there is none. */
  function TextAt(v: Value, p: Path): string {
    match Get(v, p)
    case Found(Text(s)) => s
    case _ => ""
  }

  function KeyOf(v: Value): Key {
    Key(TextAt(v, API_VERSION), TextAt(v, KIND), TextAt(v, NAME))
  }

  predicate AllTexts(fields: map<string, Value>) {
    forall name :: name in fields ==> fields[name].Text?
  }

  /** A nested map of strings; one value that is no string makes it unreadable, which reads as empty. */
  function TextsAt(v: Value, p: Path): map<string, string> {
    match Get(v, p)
    case Found(Object(fields)) =>
      if AllTexts(fields) then map name | name in fields :: fields[name].text else map[]
    case _ => map[]
  }

  function TextsValue(m: map<string, string>): Value {
    Object(map name | name in m :: Text(m[name]))
  }

  /** The UID of the first owner that is the controller. */
  function ControllerOf(owners: seq<Value>): Option<string> {
    if owners == [] then None
    else if owners[0].Object? && "controller" in owners[0].fields && owners[0].fields["controller"] == Bool(true) then
      Some(TextAt(owners[0], ["uid"]))
    else ControllerOf(owners[1..])
  }

  predicate Controls(owner: Value) {
    owner.Object? && "controller" in owner.fields && owner.fields["controller"] == Bool(true)
  }

  /** An owner that does not control the object does not count, and of several that do the first one does. */
  lemma {:induction false} ControllerExactlyWhen(owners: seq<Value>)
    ensures ControllerOf(owners).None? <==> forall i :: 0 <= i < |owners| ==> !Controls(owners[i])
    ensures forall i :: 0 <= i < |owners| && Controls(owners[i]) && (forall j :: 0 <= j < i ==> !Controls(owners[j])) ==>
              ControllerOf(owners) == Some(TextAt(owners[i], ["uid"]))
  {
    if owners != [] && !Controls(owners[0]) {
      ControllerExactlyWhen(owners[1..]);
      forall i | 0 < i < |owners| ensures owners[i] == owners[1..][i - 1] {}
    }
  }

  function OwnerAt(v: Value): Option<string> {
    match Get(v, OWNERS)
    case Found(List(owners)) => ControllerOf(owners)
    case _ => None
  }

  function OwnersValue(owner: Option<string>): Value {
    List(match owner
         case None => []
         case Some(uid) => [Object(map["uid" := Text(uid), "controller" := Bool(true)])])
  }

  // ---------- which fills keep it ----------

  /** None of the paths overlaps any of those to keep. */
  predicate Avoids(paths: seq<Path>, kept: seq<Path>) {
    forall i :: 0 <= i < |kept| ==> AllAvoid(paths, kept[i])
  }

  /** Every path to keep reads the same in both. */
  predicate SameAt(v: Value, w: Value, kept: seq<Path>) {
    forall i :: 0 <= i < |kept| ==> Get(v, kept[i]) == Get(w, kept[i])
  }

  lemma FillKeeps(obj: Value, paths: seq<Path>, val: Value, kept: seq<Path>)
    requires Avoids(paths, kept) && FillAll(obj, paths, val).Some?
    ensures SameAt(FillAll(obj, paths, val).value, obj, kept)
  {
    forall i | 0 <= i < |kept| ensures Get(FillAll(obj, paths, val).value, kept[i]) == Get(obj, kept[i]) {
      FillLeavesApart(obj, paths, val, kept[i]);
    }
  }

  /** Whatever fills the path, and in whatever object, the paths to keep read as before. */
  ghost predicate FillsKeep(p: Path, kept: seq<Path>) {
    forall i :: 0 <= i < |kept| ==> FillsLeave([p], kept[i])
  }

  /** Whatever paths are to be kept: a declared target path keeps them, for every value and every object, exactly when
      it overlaps none of them. */
  lemma KeptExactlyWhen(p: Path, kept: seq<Path>)
    ensures FillsKeep(p, kept) <==> Avoids([p], kept)
  {
    forall i | 0 <= i < |kept| ensures FillsLeave([p], kept[i]) <==> AllAvoid([p], kept[i]) {
      FillLeavesExactlyWhenApart(p, kept[i]);
      assert [p][0] == p;
    }
  }

  /** In particular what an object goes by, its labels, its stamp, and its owner; each on its own. */
  lemma HeaderIsKeptExactlyWhen(p: Path)
    ensures FillsKeep(p, KEY_PATHS) <==> Avoids([p], KEY_PATHS)
    ensures FillsKeep(p, [LABELS]) <==> Avoids([p], [LABELS])
    ensures FillsKeep(p, STAMP_PATHS) <==> Avoids([p], STAMP_PATHS)
    ensures FillsKeep(p, [OWNERS]) <==> Avoids([p], [OWNERS])
  {
    KeptExactlyWhen(p, KEY_PATHS);
    KeptExactlyWhen(p, [LABELS]);
    KeptExactlyWhen(p, STAMP_PATHS);
    KeptExactlyWhen(p, [OWNERS]);
  }

  lemma SameKey(v: Value, w: Value)
    requires SameAt(v, w, KEY_PATHS)
    ensures KeyOf(v) == KeyOf(w)
  {
    assert Get(v, KEY_PATHS[0]) == Get(w, KEY_PATHS[0]) && Get(v, KEY_PATHS[1]) == Get(w, KEY_PATHS[1])
        && Get(v, KEY_PATHS[2]) == Get(w, KEY_PATHS[2]);
  }

  lemma SameLabels(v: Value, w: Value)
    requires SameAt(v, w, [LABELS])
    ensures TextsAt(v, LABELS) == TextsAt(w, LABELS)
  {
    assert Get(v, [LABELS][0]) == Get(w, [LABELS][0]);
  }

  lemma SameStamp(v: Value, w: Value)
    requires SameAt(v, w, STAMP_PATHS)
    ensures TextsAt(v, LABELS) == TextsAt(w, LABELS) && TextsAt(v, ANNOTATIONS) == TextsAt(w, ANNOTATIONS)
  {
    assert Get(v, STAMP_PATHS[0]) == Get(w, STAMP_PATHS[0]) && Get(v, STAMP_PATHS[1]) == Get(w, STAMP_PATHS[1]);
  }

  lemma SameOwner(v: Value, w: Value)
    requires SameAt(v, w, [OWNERS])
    ensures OwnerAt(v) == OwnerAt(w)
  {
    assert Get(v, [OWNERS][0]) == Get(w, [OWNERS][0]);
  }
}
