/** Labels and annotations: how the controller stamps what it renders. A missing map reads as an empty one. */
module Labels {

  type Labelling = map<string, string>

  const APP_NAME := "app.oam.dev/name"
  const APP_COMPONENT := "app.oam.dev/component"
  const APP_COMPONENT_REVISION := "app.oam.dev/revision"
  const RESOURCE_TYPE := "app.oam.dev/resourceType"
  const APP_GENERATION := "app.oam.dev/generation"
  const WORKLOAD_RESOURCE := "WORKLOAD"
  const TRAIT_RESOURCE := "TRAIT"

  /** Reading a key a map does not have gives the empty string. */
  function Lookup(m: Labelling, key: string): string {
    if key in m then m[key] else ""
  }

  /** r took over from m what is not left: where it had a key before, it keeps its value. */
  predicate TookOver<K, V(==)>(r: map<K, V>, before: map<K, V>, m: map<K, V>, left: set<K>) {
    && r.Keys == before.Keys + (m.Keys - left)
    && forall key :: key in r ==> r[key] == if key in before then before[key] else m[key]
  }

  lemma TakeOver<K, V>(r: map<K, V>, before: map<K, V>, m: map<K, V>, left: set<K>, key: K)
    requires left <= m.Keys && key in left && TookOver(r, before, m, left)
    ensures key in r ==> TookOver(r, before, m, left - {key})
    ensures key !in r || before == map[] ==> TookOver(r[key := m[key]], before, m, left - {key})
  {
  }

  /** Adds the keys of m that r does not have. */
  method TakeFrom(before: Labelling, m: Labelling) returns (r: Labelling)
    ensures r == m + before
  {
    r := before;
    var left := m.Keys;
    while left != {}
      invariant left <= m.Keys && TookOver(r, before, m, left)
      decreases |left|
    {
      var key :| key in left;
      TakeOver(r, before, m, left, key);
      if key !in r {
        r := r[key := m[key]];
      }
      left := left - {key};
    }
  }

  /** Every key of either map; where both have it, the value of dst. */
  method MergeMapOverrideWithDst(src: Labelling, dst: Labelling) returns (r: Labelling)
    ensures r == src + dst
  {
    r := map[];
    var left := dst.Keys;
    while left != {}
      invariant left <= dst.Keys && TookOver(r, map[], dst, left)
      decreases |left|
    {
      var key :| key in left;
      TakeOver(r, map[], dst, left, key);
      r := r[key := dst[key]];
      left := left - {key};
    }
    assert r == dst;
    r := TakeFrom(r, src);
  }

  /** What the controller knows about the object it renders. */
  function Info(appName: string, component: string, revision: string, resourceType: string): Labelling {
    map[APP_NAME := appName, APP_COMPONENT := component, APP_COMPONENT_REVISION := revision, RESOURCE_TYPE := resourceType]
  }

  /** An object's own labels and annotations, while it is being rendered. */
  class Metadata {
    var labels: Labelling
    var annotations: Labelling

    constructor (labels: Labelling, annotations: Labelling)
      ensures this.labels == labels && this.annotations == annotations
    {
      this.labels := labels;
      this.annotations := annotations;
    }

    method AddLabels(added: Labelling)
      modifies this`labels
      ensures labels == old(labels) + added
    {
      labels := MergeMapOverrideWithDst(labels, added);
    }

    method AddAnnotations(added: Labelling)
      modifies this`annotations
      ensures annotations == old(annotations) + added
    {
      annotations := MergeMapOverrideWithDst(annotations, added);
    }

    method PassLabelAndAnnotation(parentLabels: Labelling, parentAnnotations: Labelling)
      modifies this
      ensures labels == parentLabels + old(labels) && annotations == parentAnnotations + old(annotations)
    {
      labels := MergeMapOverrideWithDst(parentLabels, labels);
      annotations := MergeMapOverrideWithDst(parentAnnotations, annotations);
    }

    /** The three calls renderComponent makes on each workload and trait: whatever labels the component and
        the application bring, the controller's own keys hold the controller's values; every other key holds
        the component's value, and the application's only where the component has none. */
    method Stamp(info: Labelling, generation: string, appLabels: Labelling, appAnnotations: Labelling)
      modifies this
      ensures forall key :: key in info ==> key in labels && labels[key] == info[key]
      ensures Lookup(annotations, APP_GENERATION) == generation
      ensures forall key :: key in old(labels) && key !in info ==> key in labels && labels[key] == old(labels)[key]
      ensures forall key :: key in appLabels && key !in old(labels) && key !in info ==>
                key in labels && labels[key] == appLabels[key]
      ensures labels == Stamped(old(labels), info, appLabels)
      ensures annotations == Stamped(old(annotations), map[APP_GENERATION := generation], appAnnotations)
    {
      AddLabels(info);
      AddAnnotations(map[APP_GENERATION := generation]);
      PassLabelAndAnnotation(appLabels, appAnnotations);
    }
  }

  function Stamped(own: Labelling, info: Labelling, app: Labelling): Labelling {
    app + (own + info)
  }

  // ---------- applyOnceOnly ----------

  /** The values applyOnceOnly compares. */
  datatype StampValues = StampValues(generation: string, revision: string, component: string, app: string)

  function StampOf(labels: Labelling, annotations: Labelling): StampValues {
    StampValues(Lookup(annotations, APP_GENERATION), Lookup(labels, APP_COMPONENT_REVISION),
                Lookup(labels, APP_COMPONENT), Lookup(labels, APP_NAME))
  }

  predicate MarkedForOnce(labels: Labelling) {
    Lookup(labels, RESOURCE_TYPE) == WORKLOAD_RESOURCE || Lookup(labels, RESOURCE_TYPE) == TRAIT_RESOURCE
  }

  /** A rendered object's stamp depends on the application's generation and name, the component and its
      revision, and on nothing that the component's own labels or the application's labels could say. */
  lemma StampsAreTheControllers(
    own: Labelling, app: Labelling, ownAnnotations: Labelling, appAnnotations: Labelling,
    appName: string, component: string, revision: string, generation: string, resourceType: string)
    requires resourceType == WORKLOAD_RESOURCE || resourceType == TRAIT_RESOURCE
    ensures var labels := Stamped(own, Info(appName, component, revision, resourceType), app);
            var annotations := Stamped(ownAnnotations, map[APP_GENERATION := generation], appAnnotations);
            && StampOf(labels, annotations) == StampValues(generation, revision, component, appName)
            && MarkedForOnce(labels) && APP_COMPONENT_REVISION in labels
  {
    LabelKeysDiffer();
  }

  lemma LabelKeysDiffer()
    ensures APP_NAME != APP_COMPONENT && APP_NAME != APP_COMPONENT_REVISION && APP_NAME != RESOURCE_TYPE
    ensures APP_COMPONENT != APP_COMPONENT_REVISION && APP_COMPONENT != RESOURCE_TYPE && APP_COMPONENT_REVISION != RESOURCE_TYPE
  {
    assert |APP_NAME| == 16 && |APP_COMPONENT| == 21 && |APP_COMPONENT_REVISION| == 20 && |RESOURCE_TYPE| == 24;
  }
}
