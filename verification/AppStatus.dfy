/** The application's recorded status, and the merge that keeps what other controllers wrote into it. */
module AppStatus {
  import opened Kube

  datatype WorkloadTrait = WorkloadTrait(status: string, reference: TypedReference, message: string)

  datatype WorkloadScope = WorkloadScope(status: string, reference: TypedReference)

  datatype WorkloadStatus = WorkloadStatus(
    status: string,
    componentName: string,
    revisionName: string,
    reference: TypedReference,
    traits: seq<WorkloadTrait>,
    scopes: seq<WorkloadScope>)

  // ---------- patchExtraStatusField ----------

  function PatchTrait(t: WorkloadTrait, previous: seq<WorkloadTrait>): WorkloadTrait
    decreases |previous|
  {
    if previous == [] then t
    else
      var p := previous[0];
      PatchTrait(if p.reference.key == t.reference.key && p.status != "" then t.(status := p.status) else t, previous[1..])
  }

  function PatchTraits(ts: seq<WorkloadTrait>, previous: seq<WorkloadTrait>): (r: seq<WorkloadTrait>)
    ensures |r| == |ts| && forall j :: 0 <= j < |ts| ==> r[j] == PatchTrait(ts[j], previous)
  {
    seq(|ts|, j requires 0 <= j < |ts| => PatchTrait(ts[j], previous))
  }

  function PatchFrom(w: WorkloadStatus, p: WorkloadStatus): WorkloadStatus {
    if w.revisionName != p.revisionName then w
    else w.(status := if p.status != "" then p.status else w.status, traits := PatchTraits(w.traits, p.traits))
  }

  function PatchWorkload(w: WorkloadStatus, previous: seq<WorkloadStatus>): WorkloadStatus
    decreases |previous|
  {
    if previous == [] then w else PatchWorkload(PatchFrom(w, previous[0]), previous[1..])
  }

  function Patched(ws: seq<WorkloadStatus>, previous: seq<WorkloadStatus>): (r: seq<WorkloadStatus>)
    ensures |r| == |ws| && forall i :: 0 <= i < |ws| ==> r[i] == PatchWorkload(ws[i], previous)
  {
    seq(|ws|, i requires 0 <= i < |ws| => PatchWorkload(ws[i], previous))
  }

  class StatusHolder {
    var workloads: seq<WorkloadStatus>

    constructor (workloads: seq<WorkloadStatus>)
      ensures this.workloads == workloads
    {
      this.workloads := workloads;
    }

    method PatchTraitsFrom(i: nat, p: WorkloadStatus)
      requires i < |workloads|
      modifies this
      ensures workloads == old(workloads)[i := old(workloads)[i].(traits := PatchTraits(old(workloads)[i].traits, p.traits))]
    {
      ghost var w := workloads[i];
      for j := 0 to |workloads[i].traits|
        invariant |workloads| == |old(workloads)| && |workloads[i].traits| == |w.traits|
        invariant workloads == old(workloads)[i := w.(traits := workloads[i].traits)]
        invariant forall k :: 0 <= k < j ==> workloads[i].traits[k] == PatchTrait(w.traits[k], p.traits)
        invariant forall k :: j <= k < |w.traits| ==> workloads[i].traits[k] == w.traits[k]
      {
        var tr := workloads[i].traits[j];
        for l := 0 to |p.traits|
          invariant PatchTrait(w.traits[j], p.traits) == PatchTrait(tr, p.traits[l..])
        {
          var t := p.traits[l];
          assert p.traits[l..][1..] == p.traits[l + 1..];
          if t.reference.key == tr.reference.key {
            if |t.status| > 0 {
              tr := tr.(status := t.status);
            }
          }
        }
        workloads := workloads[i := workloads[i].(traits := workloads[i].traits[j := tr])];
      }
      assert workloads[i].traits == PatchTraits(w.traits, p.traits);
    }

    method PatchExtraStatusField(previous: seq<WorkloadStatus>)
      modifies this
      ensures workloads == Patched(old(workloads), previous)
    {
      for i := 0 to |workloads|
        invariant |workloads| == |old(workloads)|
        invariant forall k :: 0 <= k < i ==> workloads[k] == PatchWorkload(old(workloads)[k], previous)
        invariant forall k :: i <= k < |workloads| ==> workloads[k] == old(workloads)[k]
      {
        ghost var before := workloads;
        for k := 0 to |previous|
          invariant |workloads| == |before|
          invariant workloads == before[i := workloads[i]]
          invariant PatchWorkload(before[i], previous) == PatchWorkload(workloads[i], previous[k..])
        {
          var w := previous[k];
          assert previous[k..][1..] == previous[k + 1..];
          if workloads[i].revisionName == w.revisionName {
            if |w.status| > 0 {
              workloads := workloads[i := workloads[i].(status := w.status)];
            }
            PatchTraitsFrom(i, w);
          }
        }
      }
    }
  }

  // ---------- what the merge keeps ----------

  /** The same entry but for the texts. */
  predicate SameRefs(a: WorkloadStatus, b: WorkloadStatus) {
    && a.(status := "", traits := []) == b.(status := "", traits := [])
    && |a.traits| == |b.traits|
    && forall j :: 0 <= j < |a.traits| ==> a.traits[j].(status := "") == b.traits[j].(status := "")
  }

  lemma {:induction false} TraitKeepsRef(t: WorkloadTrait, previous: seq<WorkloadTrait>)
    ensures PatchTrait(t, previous).(status := "") == t.(status := "")
    decreases |previous|
  {
    if previous != [] {
      var p := previous[0];
      TraitKeepsRef(if p.reference.key == t.reference.key && p.status != "" then t.(status := p.status) else t, previous[1..]);
    }
  }

  lemma {:induction false} WorkloadKeepsRefs(w: WorkloadStatus, previous: seq<WorkloadStatus>)
    ensures SameRefs(PatchWorkload(w, previous), w)
    decreases |previous|
  {
    if previous != [] {
      forall t { TraitKeepsRef(t, previous[0].traits); }
      WorkloadKeepsRefs(PatchFrom(w, previous[0]), previous[1..]);
    }
  }

  /** The merge changes no reference, name or message. */
  lemma PatchKeepsReferences(ws: seq<WorkloadStatus>, previous: seq<WorkloadStatus>)
    ensures forall i :: 0 <= i < |ws| ==> SameRefs(Patched(ws, previous)[i], ws[i])
  {
    forall i | 0 <= i < |ws| ensures SameRefs(Patched(ws, previous)[i], ws[i]) {
      WorkloadKeepsRefs(ws[i], previous);
    }
  }

  // ---------- what the merge carries over ----------

  predicate DistinctTraits(ts: seq<WorkloadTrait>) {
    forall i, j :: 0 <= i < j < |ts| ==> ts[i].reference.key != ts[j].reference.key
  }

  predicate DistinctRevisionNames(ws: seq<WorkloadStatus>) {
    forall i, j :: 0 <= i < j < |ws| ==> ws[i].revisionName != ws[j].revisionName
  }

  function OrElse(written: string, own: string): string {
    if written != "" then written else own
  }

  lemma {:induction false} TraitUnmatched(t: WorkloadTrait, previous: seq<WorkloadTrait>)
    requires forall l :: 0 <= l < |previous| ==> previous[l].reference.key != t.reference.key
    ensures PatchTrait(t, previous) == t
    decreases |previous|
  {
    if previous != [] { TraitUnmatched(t, previous[1..]); }
  }

  lemma {:induction false} TraitCarriedOver(t: WorkloadTrait, previous: seq<WorkloadTrait>, l: nat)
    requires l < |previous| && previous[l].reference.key == t.reference.key && DistinctTraits(previous)
    ensures PatchTrait(t, previous) == t.(status := OrElse(previous[l].status, t.status))
    decreases |previous|
  {
    if l == 0 {
      TraitUnmatched(t.(status := OrElse(previous[0].status, t.status)), previous[1..]);
    } else {
      TraitCarriedOver(t, previous[1..], l - 1);
    }
  }

  lemma {:induction false} WorkloadUnmatched(w: WorkloadStatus, previous: seq<WorkloadStatus>)
    requires forall k :: 0 <= k < |previous| ==> previous[k].revisionName != w.revisionName
    ensures PatchWorkload(w, previous) == w
    decreases |previous|
  {
    if previous != [] { WorkloadUnmatched(w, previous[1..]); }
  }

  lemma {:induction false} WorkloadMatched(w: WorkloadStatus, previous: seq<WorkloadStatus>, k: nat)
    requires k < |previous| && previous[k].revisionName == w.revisionName && DistinctRevisionNames(previous)
    ensures PatchWorkload(w, previous) == PatchFrom(w, previous[k])
    decreases |previous|
  {
    if k == 0 {
      WorkloadUnmatched(PatchFrom(w, previous[0]), previous[1..]);
    } else {
      WorkloadMatched(w, previous[1..], k - 1);
    }
  }

  /** With distinct revision names in the old status and distinct trait references per workload, every text
      an outside controller wrote is carried over to the workload of that revision and the trait of that
      reference, and nothing else changes. */
  lemma ExtraStatusSurvives(ws: seq<WorkloadStatus>, previous: seq<WorkloadStatus>, i: nat, k: nat)
    requires i < |ws| && k < |previous| && ws[i].revisionName == previous[k].revisionName
    requires DistinctRevisionNames(previous) && DistinctTraits(previous[k].traits)
    ensures var r := Patched(ws, previous)[i];
            && r.status == OrElse(previous[k].status, ws[i].status) && |r.traits| == |ws[i].traits|
            && (forall j, l | 0 <= j < |r.traits| && 0 <= l < |previous[k].traits|
                  && previous[k].traits[l].reference.key == ws[i].traits[j].reference.key ::
                  r.traits[j] == ws[i].traits[j].(status := OrElse(previous[k].traits[l].status, ws[i].traits[j].status)))
            && (forall j | 0 <= j < |r.traits|
                  && (forall l :: 0 <= l < |previous[k].traits| ==>
                        previous[k].traits[l].reference.key != ws[i].traits[j].reference.key) ::
                  r.traits[j] == ws[i].traits[j])
  {
    WorkloadMatched(ws[i], previous, k);
    forall j, l | 0 <= j < |ws[i].traits| && 0 <= l < |previous[k].traits|
      && previous[k].traits[l].reference.key == ws[i].traits[j].reference.key
    {
      TraitCarriedOver(ws[i].traits[j], previous[k].traits, l);
    }
    forall j | 0 <= j < |ws[i].traits| && forall l :: 0 <= l < |previous[k].traits| ==>
      previous[k].traits[l].reference.key != ws[i].traits[j].reference.key
    {
      TraitUnmatched(ws[i].traits[j], previous[k].traits);
    }
  }

  /** A workload of a revision the old status does not know is left as rendered. */
  lemma NewRevisionsStartBlank(ws: seq<WorkloadStatus>, previous: seq<WorkloadStatus>, i: nat)
    requires i < |ws| && forall k :: 0 <= k < |previous| ==> previous[k].revisionName != ws[i].revisionName
    ensures Patched(ws, previous)[i] == ws[i]
  {
    WorkloadUnmatched(ws[i], previous);
  }

  // ---------- what the merge does to every old status ----------

  /** The last non-empty text written for a trait reference; "" when there is none. */
  function Written(key: Key, previous: seq<WorkloadTrait>): string
    decreases |previous|
  {
    if previous == [] then ""
    else OrElse(Written(key, previous[1..]), if previous[0].reference.key == key then previous[0].status else "")
  }

  lemma {:induction false} TraitGetsWritten(t: WorkloadTrait, previous: seq<WorkloadTrait>)
    ensures PatchTrait(t, previous) == t.(status := OrElse(Written(t.reference.key, previous), t.status))
    decreases |previous|
  {
    if previous != [] {
      var p := previous[0];
      TraitGetsWritten(if p.reference.key == t.reference.key && p.status != "" then t.(status := p.status) else t, previous[1..]);
    }
  }

  /** The last non-empty text written for a workload of this revision name; "" when there is none. */
  function WrittenFor(revisionName: string, previous: seq<WorkloadStatus>): string
    decreases |previous|
  {
    if previous == [] then ""
    else OrElse(WrittenFor(revisionName, previous[1..]), if previous[0].revisionName == revisionName then previous[0].status else "")
  }

  /** The last non-empty text written for a trait of a workload of this revision name. */
  function WrittenForTrait(revisionName: string, key: Key, previous: seq<WorkloadStatus>): string
    decreases |previous|
  {
    if previous == [] then ""
    else OrElse(WrittenForTrait(revisionName, key, previous[1..]),
                if previous[0].revisionName == revisionName then Written(key, previous[0].traits) else "")
  }

  /** What any merge does to any entry: each text becomes the last one written under the entry's revision name, if
      one was written. */
  predicate GetsWritten(w: WorkloadStatus, previous: seq<WorkloadStatus>, r: WorkloadStatus) {
    && r.(status := "", traits := []) == w.(status := "", traits := []) && |r.traits| == |w.traits|
    && r.status == OrElse(WrittenFor(w.revisionName, previous), w.status)
    && forall j :: 0 <= j < |w.traits| ==>
         r.traits[j] == w.traits[j].(status :=
           OrElse(WrittenForTrait(w.revisionName, w.traits[j].reference.key, previous), w.traits[j].status))
  }

  lemma {:induction false} WorkloadGetsWritten(w: WorkloadStatus, previous: seq<WorkloadStatus>)
    ensures GetsWritten(w, previous, PatchWorkload(w, previous))
    decreases |previous|
  {
    if previous != [] {
      var next := PatchFrom(w, previous[0]);
      WorkloadGetsWritten(next, previous[1..]);
      assert next.revisionName == w.revisionName && |next.traits| == |w.traits|;
      forall j | 0 <= j < |w.traits|
        ensures next.traits[j] == w.traits[j].(status := OrElse(
                  if previous[0].revisionName == w.revisionName then Written(w.traits[j].reference.key, previous[0].traits) else "",
                  w.traits[j].status))
      {
        TraitGetsWritten(w.traits[j], previous[0].traits);
      }
    }
  }

  /** Merging twice with the same old status is merging once, for every old status. */
  lemma SecondPatchChangesNothing(ws: seq<WorkloadStatus>, previous: seq<WorkloadStatus>)
    ensures Patched(Patched(ws, previous), previous) == Patched(ws, previous)
  {
    forall i | 0 <= i < |ws|
      ensures PatchWorkload(PatchWorkload(ws[i], previous), previous) == PatchWorkload(ws[i], previous)
    {
      TwiceIsOnce(ws[i], previous);
    }
  }

  lemma TwiceIsOnce(w: WorkloadStatus, previous: seq<WorkloadStatus>)
    ensures PatchWorkload(PatchWorkload(w, previous), previous) == PatchWorkload(w, previous)
  {
    var once := PatchWorkload(w, previous);
    var twice := PatchWorkload(once, previous);
    WorkloadGetsWritten(w, previous);
    WorkloadGetsWritten(once, previous);
    assert once.revisionName == once.(status := "", traits := []).revisionName == w.revisionName;
    forall j | 0 <= j < |w.traits| ensures twice.traits[j] == once.traits[j] {
      assert once.traits[j].reference == w.traits[j].reference;
    }
    assert twice.traits == once.traits;
    assert twice == twice.(status := "", traits := []).(status := once.status, traits := once.traits);
    assert once == once.(status := "", traits := []).(status := once.status, traits := once.traits);
  }

  // ---------- which text survives ----------

  /** Entry m is the last one of this revision name with a text. */
  predicate IsLastWriter(previous: seq<WorkloadStatus>, revisionName: string, m: nat) {
    && m < |previous| && previous[m].revisionName == revisionName && previous[m].status != ""
    && forall n :: m < n < |previous| && previous[n].revisionName == revisionName ==> previous[n].status == ""
  }

  lemma {:induction false} NobodyWrote(previous: seq<WorkloadStatus>, revisionName: string)
    requires forall n :: 0 <= n < |previous| && previous[n].revisionName == revisionName ==> previous[n].status == ""
    ensures WrittenFor(revisionName, previous) == ""
    decreases |previous|
  {
    if previous != [] { NobodyWrote(previous[1..], revisionName); }
  }

  lemma {:induction false} LastWriterCounts(previous: seq<WorkloadStatus>, revisionName: string, m: nat)
    requires IsLastWriter(previous, revisionName, m)
    ensures WrittenFor(revisionName, previous) == previous[m].status
    decreases |previous|
  {
    if m == 0 {
      NobodyWrote(previous[1..], revisionName);
    } else {
      assert previous[1..][m - 1] == previous[m];
      LastWriterCounts(previous[1..], revisionName, m - 1);
    }
  }

  /** With any old status, the text of entry k reaches the workload of its revision name exactly when the last entry of
      that name that has a text has the same one. */
  lemma TextSurvivesExactlyWhen(ws: seq<WorkloadStatus>, previous: seq<WorkloadStatus>, i: nat, k: nat, m: nat)
    requires i < |ws| && k < |previous| && previous[k].revisionName == ws[i].revisionName && previous[k].status != ""
    requires IsLastWriter(previous, ws[i].revisionName, m)
    ensures Patched(ws, previous)[i].status == previous[k].status <==> previous[m].status == previous[k].status
  {
    WorkloadGetsWritten(ws[i], previous);
    LastWriterCounts(previous, ws[i].revisionName, m);
  }

  /** So two components without a revision name, which share the empty one, do not both keep their texts: the text of
      the last one overwrites that of the other. */
  lemma SharedRevisionNamesOverwrite(ws: seq<WorkloadStatus>, previous: seq<WorkloadStatus>, i: nat, k: nat)
    requires |previous| >= 2 && k < |previous| - 1 && i < |ws|
    requires ws[i].revisionName == previous[k].revisionName == previous[|previous| - 1].revisionName
    requires previous[k].status != "" && previous[|previous| - 1].status != "" && previous[k].status != previous[|previous| - 1].status
    ensures Patched(ws, previous)[i].status == previous[|previous| - 1].status != previous[k].status
  {
    TextSurvivesExactlyWhen(ws, previous, i, k, |previous| - 1);
    TextSurvivesExactlyWhen(ws, previous, i, |previous| - 1, |previous| - 1);
  }

  /** For instance. */
  lemma TwoUnrevisionedComponents(r: TypedReference, s: TypedReference)
    ensures var a := WorkloadStatus("up", "a", "", r, [], []);
            var b := WorkloadStatus("down", "b", "", s, [], []);
            Patched([a.(status := ""), b.(status := "")], [a, b])[0].status == "down"
  {
    var a := WorkloadStatus("up", "a", "", r, [], []);
    var b := WorkloadStatus("down", "b", "", s, [], []);
    assert "up" != "down" by { assert |"up"| == 2 && |"down"| == 4; }
    SharedRevisionNamesOverwrite([a.(status := ""), b.(status := "")], [a, b], 0, 0);
  }
}
