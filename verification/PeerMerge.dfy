/** Merging the conditions of a component's other revisions into the condition of one workload. */
module PeerMerge {
  import opened Kube
  import opened Health
  import opened Names
  import opened Sorting

  const INFO_NONE_READY: string := "Ready:0/0 "

  function Revision(c: HealthCondition): int {
    ExtractRevision(c.target.key.name)
  }

  /** Newest revision first. */
  function Rank(c: HealthCondition): int {
    -Revision(c)
  }

  // ---------- the merged condition ----------

  function Anywhere(s: seq<HealthCondition>, status: HealthStatus): bool {
    exists i :: 0 <= i < |s| && s[i].status == status
  }

  function MergedStatus(base: HealthCondition, all: seq<HealthCondition>): HealthStatus {
    if Anywhere(all, Unhealthy) then Unhealthy else base.status
  }

  function StatusEntry(c: HealthCondition): string {
    c.target.key.name + ":" + c.workloadStatus
  }

  function DiagnosisEntry(c: HealthCondition): string {
    c.target.key.name + ":" + c.diagnosis
  }

  /** The text after entries 1 .. n of a sorted list. */
  function StatusText(sorted: seq<HealthCondition>, n: nat): string
    requires 0 < n <= |sorted|
  {
    if n == 1 then StatusEntry(sorted[0]) else StatusText(sorted, n - 1) + " " + StatusEntry(sorted[n - 1])
  }

  /** From the third entry on, revisions with no replica left are not mentioned. */
  function DiagnosisText(sorted: seq<HealthCondition>, n: nat): string
    requires 0 < n <= |sorted|
  {
    if n == 1 then DiagnosisEntry(sorted[0])
    else if n > 2 && sorted[n - 1].diagnosis == INFO_NONE_READY then DiagnosisText(sorted, n - 1)
    else DiagnosisText(sorted, n - 1) + " " + DiagnosisEntry(sorted[n - 1])
  }

  function Merged(base: HealthCondition, sorted: seq<HealthCondition>): HealthCondition
    requires sorted != []
  {
    var status := MergedStatus(base, sorted);
    if status.Unknown? then base.(status := status, workloadStatus := StatusText(sorted, |sorted|))
    else base.(status := status, diagnosis := DiagnosisText(sorted, |sorted|))
  }

  // ---------- MergePeerWorkloadsConditions ----------

  /** A condition the checker goes on to overwrite. */
  class HealthRecord {
    const target: TypedReference
    var status: HealthStatus
    var diagnosis: string
    var workloadStatus: string

    constructor (c: HealthCondition)
      ensures Value() == c
    {
      target := c.target;
      status := c.status;
      diagnosis := c.diagnosis;
      workloadStatus := c.workloadStatus;
    }

    function Value(): HealthCondition
      reads this
    {
      HealthCondition(target, status, diagnosis, workloadStatus)
    }
  }

  lemma AnywhereExtends(s: seq<HealthCondition>, i: nat, status: HealthStatus)
    requires i < |s|
    ensures Anywhere(s[..i + 1], status) <==> Anywhere(s[..i], status) || s[i].status == status
  {
    assert s[..i + 1] == s[..i] + [s[i]];
    if k :| 0 <= k < i && s[..i][k].status == status { assert s[..i + 1][k].status == status; }
    if s[i].status == status { assert s[..i + 1][i].status == status; }
  }

  method RaiseUnhealthy(basic: HealthRecord, sorted: seq<HealthCondition>)
    modifies basic`status
    ensures basic.status == MergedStatus(old(basic.Value()), sorted)
  {
    ghost var base := basic.Value();
    for i := 0 to |sorted|
      invariant basic.status == MergedStatus(base, sorted[..i])
    {
      AnywhereExtends(sorted, i, Unhealthy);
      if sorted[i].status == Unhealthy {
        basic.status := Unhealthy;
      }
    }
    assert sorted[..|sorted|] == sorted;
  }

  method WriteTexts(basic: HealthRecord, sorted: seq<HealthCondition>)
    requires sorted != []
    modifies basic`diagnosis, basic`workloadStatus
    ensures basic.status.Unknown? ==>
              basic.workloadStatus == StatusText(sorted, |sorted|) && basic.diagnosis == old(basic.diagnosis)
    ensures !basic.status.Unknown? ==>
              basic.diagnosis == DiagnosisText(sorted, |sorted|) && basic.workloadStatus == old(basic.workloadStatus)
  {
    if basic.status == Unknown {
      basic.workloadStatus := sorted[0].target.key.name + ":" + sorted[0].workloadStatus;
      for i := 1 to |sorted|
        invariant basic.workloadStatus == StatusText(sorted, i)
        modifies basic`workloadStatus
      {
        basic.workloadStatus := basic.workloadStatus + " " + (sorted[i].target.key.name + ":" + sorted[i].workloadStatus);
      }
    } else {
      basic.diagnosis := sorted[0].target.key.name + ":" + sorted[0].diagnosis;
      for i := 1 to |sorted|
        invariant basic.diagnosis == DiagnosisText(sorted, i)
        modifies basic`diagnosis
      {
        if i - 1 > 0 && sorted[i].diagnosis == INFO_NONE_READY {
          continue;
        }
        basic.diagnosis := basic.diagnosis + " " + (sorted[i].target.key.name + ":" + sorted[i].diagnosis);
      }
    }
  }

  /** The peers' slice is read, never written. */
  method MergePeerWorkloadsConditions(p: array<HealthCondition>, basic: HealthRecord?)
    modifies basic
    ensures basic != null && p.Length == 0 ==> basic.Value() == old(basic.Value())
    ensures basic != null && p.Length > 0 ==>
              exists sorted ::
                && IsSortOf(sorted, p[..] + [old(basic.Value())], Rank) && sorted != []
                && basic.Value() == Merged(old(basic.Value()), sorted)
  {
    if basic == null || p.Length == 0 {
      return;
    }
    var base := basic.Value();
    var peers := new HealthCondition[p.Length + 1](_ => base);
    forall i | 0 <= i < p.Length {
      peers[i] := p[i];
    }
    assert peers[..] == p[..] + [base];
    Sort(peers, Rank);
    var sorted := peers[..];
    RaiseUnhealthy(basic, sorted);
    WriteTexts(basic, sorted);
    assert basic.Value() == Merged(base, sorted);
  }

  // ---------- what the merge means ----------

  /** The merged status is unhealthy exactly when the base or some peer is, and is the base's own otherwise,
      however the sort breaks ties. */
  lemma MergedStatusIsExact(base: HealthCondition, peers: seq<HealthCondition>, sorted: seq<HealthCondition>)
    requires IsSortOf(sorted, peers + [base], Rank) && sorted != []
    ensures Merged(base, sorted).status
         == (if base.status.Unhealthy? || exists i :: 0 <= i < |peers| && peers[i].status.Unhealthy? then Unhealthy
             else base.status)
  {
    var all := peers + [base];
    SameMembers(sorted, all);
    if i :| 0 <= i < |sorted| && sorted[i].status == Unhealthy {
      assert sorted[i] in all;
    }
    assert base == all[|peers|] && base in all;
    if i :| 0 <= i < |peers| && peers[i].status.Unhealthy? {
      assert peers[i] == all[i] && peers[i] in all;
    }
  }

  // ---------- which entries the text holds ----------

  /** The lines with a space between them. */
  function Spaced(lines: seq<string>): string
    requires lines != []
  {
    if |lines| == 1 then lines[0] else lines[0] + " " + Spaced(lines[1..])
  }

  /** One line per entry: its workload's name, and its status or its diagnosis. */
  function StatusLines(s: seq<HealthCondition>): (lines: seq<string>)
    ensures |lines| == |s|
  {
    seq(|s|, i requires 0 <= i < |s| => s[i].target.key.name + ":" + s[i].workloadStatus)
  }

  function DiagnosisLines(s: seq<HealthCondition>): (lines: seq<string>)
    ensures |lines| == |s|
  {
    seq(|s|, i requires 0 <= i < |s| => s[i].target.key.name + ":" + s[i].diagnosis)
  }

  /** Without the entries of revisions that have no replica left. */
  function Running(s: seq<HealthCondition>): seq<HealthCondition> {
    if s == [] then [] else (if s[0].diagnosis == "Ready:0/0 " then [] else [s[0]]) + Running(s[1..])
  }

  /** The first two entries, and of the others those that have replicas. */
  function Mentioned(s: seq<HealthCondition>): seq<HealthCondition> {
    if |s| <= 2 then s else s[..2] + Running(s[2..])
  }

  lemma {:induction false} SpacedAppend(lines: seq<string>, line: string)
    requires lines != []
    ensures Spaced(lines + [line]) == Spaced(lines) + " " + line
  {
    var all := lines + [line];
    if |lines| == 1 {
      assert all[1..] == [line];
    } else {
      assert all[1..] == lines[1..] + [line];
      SpacedAppend(lines[1..], line);
      assert Spaced(all) == lines[0] + " " + (Spaced(lines[1..]) + " " + line);
      assert lines[0] + " " + (Spaced(lines[1..]) + " " + line) == (lines[0] + " " + Spaced(lines[1..])) + " " + line;
    }
  }

  lemma {:induction false} StatusTextIsSpaced(s: seq<HealthCondition>, n: nat)
    requires 0 < n <= |s|
    ensures StatusText(s, n) == Spaced(StatusLines(s[..n]))
  {
    var lines := StatusLines(s[..n]);
    if n > 1 {
      StatusTextIsSpaced(s, n - 1);
      assert lines == StatusLines(s[..n - 1]) + [s[n - 1].target.key.name + ":" + s[n - 1].workloadStatus];
      SpacedAppend(StatusLines(s[..n - 1]), s[n - 1].target.key.name + ":" + s[n - 1].workloadStatus);
    }
  }

  lemma {:induction false} RunningAppend(s: seq<HealthCondition>, c: HealthCondition)
    ensures Running(s + [c]) == Running(s) + if c.diagnosis == "Ready:0/0 " then [] else [c]
  {
    if s == [] {
      assert s + [c] == [c];
    } else {
      assert (s + [c])[1..] == s[1..] + [c];
      RunningAppend(s[1..], c);
    }
  }

  lemma MentionedAppend(s: seq<HealthCondition>, c: HealthCondition)
    requires s != []
    ensures Mentioned(s + [c]) == if |s| >= 2 && c.diagnosis == "Ready:0/0 " then Mentioned(s) else Mentioned(s) + [c]
  {
    var all := s + [c];
    if |s| >= 2 {
      assert all[..2] == s[..2] && all[2..] == s[2..] + [c];
      RunningAppend(s[2..], c);
      if |s| == 2 { assert s[2..] == [] && s[..2] == s; }
    }
  }

  lemma {:induction false} DiagnosisTextIsSpaced(s: seq<HealthCondition>, n: nat)
    requires 0 < n <= |s|
    ensures Mentioned(s[..n]) != [] && DiagnosisText(s, n) == Spaced(DiagnosisLines(Mentioned(s[..n])))
  {
    if n > 1 {
      DiagnosisTextIsSpaced(s, n - 1);
      var before, c := Mentioned(s[..n - 1]), s[n - 1];
      assert s[..n] == s[..n - 1] + [c];
      MentionedAppend(s[..n - 1], c);
      if Mentioned(s[..n]) == before + [c] {
        assert DiagnosisLines(before + [c]) == DiagnosisLines(before) + [c.target.key.name + ":" + c.diagnosis];
        SpacedAppend(DiagnosisLines(before), c.target.key.name + ":" + c.diagnosis);
      }
    } else {
      assert Mentioned(s[..1]) == s[..1];
    }
  }

  /** The merge writes one of the two texts and leaves the other and the target: with an unknown status it lists every
      entry, newest first, with its workload status; otherwise it lists with their diagnosis the two newest, and the
      others unless they have no replica left. */
  lemma MergedTextIsExact(base: HealthCondition, peers: seq<HealthCondition>, sorted: seq<HealthCondition>)
    requires IsSortOf(sorted, peers + [base], Rank) && sorted != []
    ensures var m := Merged(base, sorted);
            && m.target == base.target && Mentioned(sorted) != []
            && (forall i, j :: 0 <= i < j < |sorted| ==>
                  ExtractRevision(sorted[i].target.key.name) >= ExtractRevision(sorted[j].target.key.name))
            && (m.status.Unknown? ==> m.diagnosis == base.diagnosis && m.workloadStatus == Spaced(StatusLines(sorted)))
            && (!m.status.Unknown? ==>
                  m.workloadStatus == base.workloadStatus && m.diagnosis == Spaced(DiagnosisLines(Mentioned(sorted))))
  {
    assert sorted[..|sorted|] == sorted;
    StatusTextIsSpaced(sorted, |sorted|);
    DiagnosisTextIsSpaced(sorted, |sorted|);
  }

  /** What of an entry can be seen in the merged text: its name, and the text that is merged. */
  datatype View = View(rank: int, name: string, text: string)

  function ViewOf(c: HealthCondition, status: HealthStatus): View {
    View(Rank(c), c.target.key.name, if status.Unknown? then c.workloadStatus else c.diagnosis)
  }

  function ViewRank(v: View): int {
    v.rank
  }

  /** Entries of one revision look alike in the merged text. */
  ghost predicate TiesLookAlike(all: seq<HealthCondition>, status: HealthStatus) {
    forall x, y :: x in all && y in all && Revision(x) == Revision(y) ==> ViewOf(x, status) == ViewOf(y, status)
  }

  lemma {:induction false} SameStatusText(s: seq<HealthCondition>, t: seq<HealthCondition>, n: nat)
    requires 0 < n <= |s| && n <= |t|
    requires forall i :: 0 <= i < n ==> StatusEntry(s[i]) == StatusEntry(t[i])
    ensures StatusText(s, n) == StatusText(t, n)
  {
    if n > 1 { SameStatusText(s, t, n - 1); }
  }

  lemma {:induction false} SameDiagnosisText(s: seq<HealthCondition>, t: seq<HealthCondition>, n: nat)
    requires 0 < n <= |s| && n <= |t|
    requires forall i :: 0 <= i < n ==> DiagnosisEntry(s[i]) == DiagnosisEntry(t[i]) && s[i].diagnosis == t[i].diagnosis
    ensures DiagnosisText(s, n) == DiagnosisText(t, n)
  {
    if n > 1 { SameDiagnosisText(s, t, n - 1); }
  }

  lemma {:induction false} SortedViews(all: seq<HealthCondition>, s: seq<HealthCondition>, t: seq<HealthCondition>, status: HealthStatus)
    requires IsSortOf(s, all, Rank) && IsSortOf(t, all, Rank) && TiesLookAlike(all, status)
    ensures |s| == |t| && forall i :: 0 <= i < |s| ==> ViewOf(s[i], status) == ViewOf(t[i], status)
  {
    var view := c => ViewOf(c, status);
    SortsLookAlike(all, s, t, Rank, view, ViewRank);
    forall i | 0 <= i < |s| ensures ViewOf(s[i], status) == ViewOf(t[i], status) {
      assert Image(s, view)[i] == Image(t, view)[i];
    }
  }

  /** Whatever order the peers arrive in and whatever the sort does, the whole merged condition is the same, as long as
      entries of one revision have one name and one text of the kind that is merged; in particular when all revisions
      differ. */
  lemma {:induction false} MergeIgnoresPeerOrder(
    base: HealthCondition, p: seq<HealthCondition>, q: seq<HealthCondition>, sp: seq<HealthCondition>, sq: seq<HealthCondition>)
    requires multiset(p) == multiset(q) && TiesLookAlike(p + [base], MergedStatus(base, p + [base]))
    requires IsSortOf(sp, p + [base], Rank) && IsSortOf(sq, q + [base], Rank) && sp != [] && sq != []
    ensures Merged(base, sp) == Merged(base, sq)
  {
    var all := p + [base];
    var status := MergedStatus(base, all);
    assert multiset(p + [base]) == multiset(q + [base]);
    SameMembers(sp, all);
    SameMembers(sq, all);
    SameAnywhere(sp, all);
    SameAnywhere(sq, all);
    SortedViews(all, sp, sq, status);
    if status.Unknown? {
      SameStatusText(sp, sq, |sp|);
    } else {
      SameDiagnosisText(sp, sq, |sp|);
    }
  }

  lemma {:induction false} SameAnywhere(s: seq<HealthCondition>, t: seq<HealthCondition>)
    requires forall x :: x in s <==> x in t
    ensures Anywhere(s, Unhealthy) == Anywhere(t, Unhealthy)
  {
    if i :| 0 <= i < |s| && s[i].status == Unhealthy { assert s[i] in t; }
    if i :| 0 <= i < |t| && t[i].status == Unhealthy { assert t[i] in s; }
  }

  lemma {:induction false} SecondRevision()
    ensures ExtractRevision("c-v2") == 2
  {
    RevisionNumberRoundTrip("c", 2);
    NameShape("c", 2);
    assert Itoa(2) == "2";
  }

  /** A single letter other than v holds no number. */
  lemma {:induction false} LetterHasNoNumber(name: string)
    requires |name| == 1 && 'a' <= name[0] < 'v'
    ensures ExtractRevision(name) == 0
  {
    assert name[..0] == "" && name[0..] == name;
    assert LastV(name) == -1;
  }

  lemma {:induction false} SecondIsRanked(c: HealthCondition)
    requires c.target.key.name == "c-v2"
    ensures Rank(c) == -2
  {
    SecondRevision();
  }

  lemma {:induction false} LetterIsRanked(c: HealthCondition)
    requires |c.target.key.name| == 1 && 'a' <= c.target.key.name[0] < 'v'
    ensures Rank(c) == 0
  {
    LetterHasNoNumber(c.target.key.name);
  }

  /** With two peers at one revision and different names, both ways to break the tie are sorts of the same list, and
      they give different texts. */
  lemma {:induction false} TiesAreVisible(k: Key, base: HealthCondition, a: HealthCondition, b: HealthCondition)
    requires base == HealthCondition(TypedReference(k.(name := "c-v2"), ""), Healthy, "x", "")
    requires a == HealthCondition(TypedReference(k.(name := "a"), ""), Healthy, "x", "")
    requires b == HealthCondition(TypedReference(k.(name := "b"), ""), Healthy, "x", "")
    ensures IsSortOf([base] + [a, b], [a, b] + [base], Rank) && IsSortOf([base] + [b, a], [a, b] + [base], Rank)
    ensures Merged(base, [base] + [a, b]) != Merged(base, [base] + [b, a])
  {
    SecondIsRanked(base);
    LetterIsRanked(a);
    LetterIsRanked(b);
    ThreeSorted(base, a, b, Rank);
    TextsDiffer(base, a, b);
  }

  lemma {:induction false} TextsDiffer(base: HealthCondition, a: HealthCondition, b: HealthCondition)
    requires base.target.key.name == "c-v2" && a.target.key.name == "a" && b.target.key.name == "b"
    requires base.diagnosis == a.diagnosis == b.diagnosis == "x" && base.status == a.status == b.status == Healthy
    ensures Merged(base, [base] + [a, b]) != Merged(base, [base] + [b, a])
  {
    var s, t := [base] + [a, b], [base] + [b, a];
    assert !Anywhere(s, Unhealthy) && !Anywhere(t, Unhealthy);
    var head := DiagnosisText(s, 1);
    assert head == DiagnosisText(t, 1) == "c-v2:x";
    assert DiagnosisText(s, 2) == head + " " + "a:x" && DiagnosisText(t, 2) == head + " " + "b:x";
    assert DiagnosisText(s, 3) == DiagnosisText(s, 2) + " " + "b:x";
    assert DiagnosisText(t, 3) == DiagnosisText(t, 2) + " " + "a:x";
    assert DiagnosisText(s, 3)[|head| + 1] == 'a' && DiagnosisText(t, 3)[|head| + 1] == 'b';
  }
}
