/** Component revisions: the handler that numbers and stores them, and the cleanup that bounds their history. */
module Revisions {
  import opened Wrappers
  import opened Kube
  import opened Sets
  import opened Names
  import opened Sorting

  /** A component's spec, as the text it is stored as. */
  type Spec = string

  datatype Revision = Revision(name: string, number: int)

  datatype Component = Component(name: string, spec: Spec, latest: Option<Revision>)

  /** A ControllerRevision; data that does not unpack to a component is None. */
  datatype Stored = Stored(number: int, data: Option<Component>)

  type Store = map<string, Stored>

  /** What goes wrong while one event is handled; deletes counts the deletions that work before one fails. */
  datatype Faults = Faults(getFails: bool, create: Call, status: Call, listFails: bool, deletes: Option<nat>)

  // ---------- cleaning up ----------

  /** The revision names that some application configuration is pinned to; "" pins nothing. */
  function PinnedBy(components: seq<string>): set<string> {
    if components == [] then {}
    else (
      var last := components[|components| - 1];
      PinnedBy(components[..|components| - 1]) + (if last != "" then {last} else {})
    )
  }

  function Pinned(apps: seq<seq<string>>): set<string> {
    if apps == [] then {} else Pinned(apps[..|apps| - 1]) + PinnedBy(apps[|apps| - 1])
  }

  lemma {:induction false} PinnedByExactly(components: seq<string>, name: string)
    ensures name in PinnedBy(components) <==> name != "" && name in components
  {
    if components != [] {
      var n := |components| - 1;
      PinnedByExactly(components[..n], name);
      assert components == components[..n] + [components[n]];
    }
  }

  /** What is pinned is what some component of some application names as its revision. */
  lemma {:induction false} PinnedExactlyWhen(apps: seq<seq<string>>, name: string)
    ensures name in Pinned(apps) <==> name != "" && exists i :: 0 <= i < |apps| && name in apps[i]
  {
    if apps != [] {
      var n := |apps| - 1;
      PinnedExactlyWhen(apps[..n], name);
      PinnedByExactly(apps[n], name);
      if i :| 0 <= i < n && name in apps[i] { assert name in apps[..n][i]; }
      if i :| 0 <= i < n && name in apps[..n][i] { assert name in apps[i]; }
    }
  }

  function Unpinned(store: Store, pinned: set<string>): set<string> {
    set name | name in store && name !in pinned
  }

  function Min(a: int, b: int): int {
    if a < b then a else b
  }

  function Max(a: int, b: int): int {
    if a < b then b else a
  }

  function Capped(deletes: Option<nat>, n: nat): nat {
    if deletes.Some? then Min(deletes.value, n) else n
  }

  /** How many revisions a cleanup that is not interrupted deletes. */
  function Victims(store: Store, pinned: set<string>, limit: int): nat {
    Min(Max(|store| - (limit + |pinned|), 0), |Unpinned(store, pinned)|)
  }

  function Deleted(before: Store, after: Store): set<string> {
    before.Keys - after.Keys
  }

  ghost predicate OldestFirst(before: Store, after: Store, pinned: set<string>) {
    forall d, s :: d in Deleted(before, after) && s in Unpinned(after, pinned) && s in before ==>
      before[d].number <= before[s].number
  }

  /** One cleanup: it deletes only unpinned revisions, oldest first, and as many as it should, or as many as
      it manages before a deletion fails. */
  ghost predicate CleanedUp(before: Store, after: Store, pinned: set<string>, limit: int, f: Faults) {
    && after.Keys <= before.Keys && (forall name :: name in after ==> after[name] == before[name])
    && Deleted(before, after) !! pinned
    && OldestFirst(before, after, pinned)
    && |Deleted(before, after)| == (if f.listFails then 0 else Capped(f.deletes, Victims(before, pinned, limit)))
  }

  // ---------- handling one component event ----------

  /** The server's component and its revisions; highest is history only: the highest number ever stored. */
  datatype World = World(component: Component, store: Store, highest: nat)

  /** IsRevisionDiff */
  function Diff(c: Component, store: Store, getFails: bool): (bool, int) {
    if c.latest.None? then (true, 0)
    else if getFails || c.latest.value.name !in store then (true, c.latest.value.number)
    else
      var old_ := store[c.latest.value.name];
      if old_.data.None? then (true, old_.number)
      else (c.spec != old_.data.value.spec, old_.number)
  }

  /** The component as it will be once revision number is its latest, and the store that holds that revision. */
  function Promoted(c: Component, number: int): Component {
    c.(latest := Some(Revision(ConstructRevisionName(c.name, number), number)))
  }

  function WithRevision(w: World, number: int): Store {
    w.store[ConstructRevisionName(w.component.name, number) := Stored(number, Some(Promoted(w.component, number)))]
  }

  /** The revision is stored and, unless a request fails, made the latest; then old ones are cleaned up. */
  ghost predicate StoredNext(w: World, after: World, created: bool, limit: int, f: Faults, apps: seq<seq<string>>, next: int) {
    && after.highest == Max(w.highest, next)
    && created == (f.create.Works? && f.status.Works?)
    && after.component == (if f.create.Works? && !f.status.Rejected? then Promoted(w.component, next) else w.component)
    && (created && limit < next ==> CleanedUp(WithRevision(w, next), after.store, Pinned(apps), limit, f))
    && (!created || next <= limit ==> after.store == WithRevision(w, next))
  }

  ghost predicate Handled(w: World, after: World, created: bool, limit: int, f: Faults, apps: seq<seq<string>>) {
    var (diff, current) := Diff(w.component, w.store, f.getFails);
    if !diff || f.create.Rejected? || ConstructRevisionName(w.component.name, current + 1) in w.store then
      !created && after == w
    else
      StoredNext(w, after, created, limit, f, apps, current + 1)
  }

  // ---------- the handler ----------

  datatype Entry = Entry(name: string, number: int)

  function ByNumber(e: Entry): int {
    e.number
  }

  /** The client's List: every revision once, in no particular order. */
  method List(store: Store) returns (entries: array<Entry>)
    ensures fresh(entries) && entries.Length == |store|
    ensures IsListing(entries[..], store)
  {
    var found: seq<Entry>, left := [], store.Keys;
    while left != {}
      invariant left <= store.Keys && |found| + |left| == |store|
      invariant forall i :: 0 <= i < |found| ==>
                  found[i].name in store && found[i].name !in left && found[i].number == store[found[i].name].number
      invariant forall i, j :: 0 <= i < j < |found| ==> found[i].name != found[j].name
      invariant forall name :: name in store && name !in left ==> Entry(name, store[name].number) in found
      decreases |left|
    {
      var name :| name in left;
      found := found + [Entry(name, store[name].number)];
      left := left - {name};
    }
    entries := new Entry[|found|](i requires 0 <= i < |found| => found[i]);
    assert entries[..] == found;
  }

  ghost predicate IsListing(entries: seq<Entry>, store: Store) {
    && (forall e :: e in entries <==> e.name in store && e.number == store[e.name].number)
    && (forall i, j :: 0 <= i < j < |entries| ==> entries[i].name != entries[j].name)
  }

  method LiveHashes(apps: seq<seq<string>>) returns (live: set<string>)
    ensures live == Pinned(apps)
  {
    live := {};
    for i := 0 to |apps|
      invariant live == Pinned(apps[..i])
    {
      var components := apps[i];
      for j := 0 to |components|
        invariant live == Pinned(apps[..i]) + PinnedBy(components[..j])
      {
        assert components[..j + 1][..j] == components[..j];
        if components[j] != "" {
          live := live + {components[j]};
        }
      }
      assert components[..|components|] == components && apps[..i + 1][..i] == apps[..i];
    }
    assert apps[..|apps|] == apps;
  }

  class ComponentHandler {
    const revisionLimit: int
    var component: Component
    var store: Store
    ghost var highest: nat

    constructor (component: Component, limit: int)
      ensures State() == World(component, map[], 0) && revisionLimit == limit
    {
      this.component := component;
      store := map[];
      highest := 0;
      revisionLimit := limit;
    }

    ghost function State(): World
      reads this
    {
      World(component, store, highest)
    }

    method IsRevisionDiff(getFails: bool) returns (diff: bool, number: int)
      ensures (diff, number) == Diff(component, store, getFails)
    {
      if component.latest.None? {
        return true, 0;
      }
      var latest := component.latest.value;
      if getFails || latest.name !in store {
        return true, latest.number;
      }
      var previous := store[latest.name];
      if previous.data.None? {
        return true, previous.number;
      }
      if component.spec == previous.data.value.spec {
        return false, previous.number;
      }
      return true, previous.number;
    }

    /** sortedControllerRevision: what to walk over, and how many to delete. */
    method SortedControllerRevision(revisions: array<Entry>, live: set<string>) returns (toKill: int)
      modifies revisions
      ensures multiset(revisions[..]) == multiset(old(revisions[..]))
      ensures toKill == Max(revisions.Length - (revisionLimit + |live|), 0)
      ensures toKill > 0 ==> Ordered(revisions[..], ByNumber)
    {
      toKill := revisions.Length - (revisionLimit + |live|);
      if toKill <= 0 {
        return 0;
      }
      Sort(revisions, ByNumber);
    }

    /** The loop over the sorted revisions: it stops at the end of the list, when enough are deleted, or at
        a deletion that fails. */
    method DeleteInOrder(entries: seq<Entry>, live: set<string>, victims: nat, deletes: Option<nat>)
      returns (ghost i: nat, ghost deleted: nat)
      requires forall i, j :: 0 <= i < j < |entries| ==> entries[i].name != entries[j].name
      modifies this`store
      ensures Walked(old(store), store, entries, live, i, deleted)
      ensures deleted <= victims && (deletes.Some? ==> deleted <= deletes.value)
      ensures i == |entries| || deleted == victims || deletes == Some(deleted)
    {
      var toKill := victims;
      i, deleted := 0, 0;
      for k := 0 to |entries|
        invariant i == k && toKill == victims - deleted >= 0
        invariant deletes.Some? ==> deleted <= deletes.value
        invariant Walked(old(store), store, entries, live, k, deleted)
      {
        if toKill <= 0 {
          break;
        }
        var name := entries[k].name;
        WalkOn(old(store), store, entries, live, k, deleted);
        if name !in live {
          if deletes == Some(victims - toKill) {
            return;
          }
          store := store - {name};
          toKill := toKill - 1;
          deleted := deleted + 1;
        }
        i := i + 1;
      }
    }

    method CleanupControllerRevision(f: Faults, apps: seq<seq<string>>)
      modifies this`store
      ensures CleanedUp(old(store), store, Pinned(apps), revisionLimit, f)
    {
      if f.listFails {
        return;
      }
      var revisions := List(store);
      ghost var listed := revisions[..];
      var live := LiveHashes(apps);
      var toKill := SortedControllerRevision(revisions, live);
      SortKeepsListing(listed, revisions[..], store);
      var entries := revisions[..];
      ghost var i, deleted := DeleteInOrder(entries, live, toKill, f.deletes);
      WalkIsCleanup(old(store), store, entries, live, i, deleted, revisionLimit, f);
    }

    method CreateControllerRevision(f: Faults, apps: seq<seq<string>>) returns (created: bool)
      modifies this
      ensures Handled(old(State()), State(), created, revisionLimit, f, apps)
    {
      var diff, current := IsRevisionDiff(f.getFails);
      if !diff {
        return false;
      }
      var next := current + 1;
      var name := ConstructRevisionName(component.name, next);
      var comp := component.(latest := Some(Revision(name, next)));
      if f.create.Rejected? || name in store {
        return false;
      }
      store := store[name := Stored(next, Some(comp))];
      highest := Max(highest, next);
      if f.create.Lost? {
        return false;
      }
      if f.status.Rejected? {
        return false;
      }
      component := comp;
      if f.status.Lost? {
        return false;
      }
      if revisionLimit < next {
        CleanupControllerRevision(f, apps);
      }
      return true;
    }
  }

  // ---------- the walk over the sorted list ----------

  lemma SortKeepsListing(listed: seq<Entry>, entries: seq<Entry>, store: Store)
    requires IsListing(listed, store) && multiset(entries) == multiset(listed)
    ensures IsListing(entries, store) && |entries| == |listed|
  {
    SameMembers(listed, entries);
    forall i, j | 0 <= i < j < |entries| ensures entries[i].name != entries[j].name {
      if entries[i].name == entries[j].name {
        assert entries[i] in listed && entries[j] in listed;
        OnceEach(listed, entries[i]);
        TwiceThere(entries, i, j);
      }
    }
  }

  lemma {:induction false} OnceEach(s: seq<Entry>, e: Entry)
    requires forall i, j :: 0 <= i < j < |s| ==> s[i].name != s[j].name
    ensures multiset(s)[e] <= 1
  {
    if s != [] {
      var n := |s| - 1;
      OnceEach(s[..n], e);
      assert s == s[..n] + [s[n]];
      if s[n] == e { assert e !in s[..n]; }
    }
  }

  lemma TwiceThere(s: seq<Entry>, i: nat, j: nat)
    requires i < j < |s| && s[i] == s[j]
    ensures multiset(s)[s[i]] >= 2
  {
    assert s == s[..j] + [s[j]] + s[j + 1..];
    assert s[i] == s[..j][i] && s[i] in s[..j];
  }

  /** The unpinned names among the first i of the list. */
  function Gone(entries: seq<Entry>, live: set<string>, i: nat): set<string>
    requires i <= |entries|
  {
    if i == 0 then {}
    else Gone(entries, live, i - 1) + (if entries[i - 1].name in live then {} else {entries[i - 1].name})
  }

  predicate Listed(entries: seq<Entry>, i: nat, name: string)
    requires i <= |entries|
  {
    exists k :: 0 <= k < i && entries[k].name == name
  }

  lemma {:induction false} GoneMembers(entries: seq<Entry>, live: set<string>, i: nat)
    requires i <= |entries|
    ensures forall name :: name in Gone(entries, live, i) <==> name !in live && Listed(entries, i, name)
  {
    if i > 0 {
      GoneMembers(entries, live, i - 1);
      forall name ensures Listed(entries, i, name) <==> Listed(entries, i - 1, name) || entries[i - 1].name == name {}
    }
  }

  /** Those are the revisions missing from the store, and they are this many. */
  ghost predicate Walked(before: Store, store: Store, entries: seq<Entry>, live: set<string>, i: nat, deleted: int) {
    && i <= |entries|
    && store.Keys == before.Keys - Gone(entries, live, i)
    && (forall name :: name in store ==> name in before && store[name] == before[name])
    && |Gone(entries, live, i)| == deleted
  }

  lemma WalkOn(before: Store, store: Store, entries: seq<Entry>, live: set<string>, i: nat, deleted: int)
    requires i < |entries| && Walked(before, store, entries, live, i, deleted)
    requires forall i, j :: 0 <= i < j < |entries| ==> entries[i].name != entries[j].name
    ensures entries[i].name in live ==> Walked(before, store, entries, live, i + 1, deleted)
    ensures entries[i].name !in live ==> Walked(before, store - {entries[i].name}, entries, live, i + 1, deleted + 1)
  {
    GoneMembers(entries, live, i);
    var name, gone := entries[i].name, Gone(entries, live, i);
    if name in live {
      assert Gone(entries, live, i + 1) == gone;
    } else {
      assert name !in gone;
      assert Gone(entries, live, i + 1) == gone + {name};
      assert (store - {name}).Keys == before.Keys - (gone + {name});
    }
  }

  lemma InListing(entries: seq<Entry>, store: Store, name: string) returns (k: nat)
    requires IsListing(entries, store) && name in store
    ensures k < |entries| && entries[k] == Entry(name, store[name].number)
  {
    assert Entry(name, store[name].number) in entries;
    k :| k < |entries| && entries[k] == Entry(name, store[name].number);
  }

  /** Deleting the unpinned part of a prefix of the sorted list deletes the oldest. */
  lemma PrefixIsOldest(before: Store, after: Store, entries: seq<Entry>, live: set<string>, i: nat, d: string, s: string)
    requires IsListing(entries, before) && i <= |entries| && Ordered(entries, ByNumber)
    requires d in Gone(entries, live, i) && d in before
    requires s in before && s !in live && s !in Gone(entries, live, i)
    ensures before[d].number <= before[s].number
  {
    GoneMembers(entries, live, i);
    var a :| 0 <= a < i && entries[a].name == d;
    var b := InListing(entries, before, s);
    assert !Listed(entries, i, s);
    assert entries[a] in entries;
    assert ByNumber(entries[a]) <= ByNumber(entries[b]);
  }

  lemma GoneAreUnpinned(before: Store, entries: seq<Entry>, live: set<string>, i: nat)
    requires IsListing(entries, before) && i <= |entries|
    ensures Gone(entries, live, i) <= Unpinned(before, live)
    ensures i == |entries| ==> Gone(entries, live, i) == Unpinned(before, live)
  {
    GoneMembers(entries, live, i);
    forall name | name in Gone(entries, live, i) ensures name in before {
      var k :| 0 <= k < i && entries[k].name == name;
      assert entries[k] in entries;
    }
    if i == |entries| {
      forall name | name in Unpinned(before, live) ensures name in Gone(entries, live, i) {
        var k := InListing(entries, before, name);
      }
    }
  }

  lemma WalkEnds(before: Store, after: Store, entries: seq<Entry>, live: set<string>, i: nat, deleted: int)
    requires IsListing(entries, before) && Walked(before, after, entries, live, i, deleted)
    requires deleted == 0 || Ordered(entries, ByNumber)
    ensures Deleted(before, after) !! live && OldestFirst(before, after, live)
    ensures |Deleted(before, after)| == deleted <= |Unpinned(before, live)|
    ensures i == |entries| ==> deleted == |Unpinned(before, live)|
  {
    GoneAreUnpinned(before, entries, live, i);
    var gone := Gone(entries, live, i);
    assert Deleted(before, after) == gone;
    SubsetSize(gone, Unpinned(before, live));
    forall d, s | d in Deleted(before, after) && s in Unpinned(after, live) && s in before
      ensures before[d].number <= before[s].number
    {
      PrefixIsOldest(before, after, entries, live, i, d, s);
    }
  }

  lemma WalkIsCleanup(
    before: Store, after: Store, entries: seq<Entry>, live: set<string>, i: nat, deleted: nat, limit: int, f: Faults)
    requires IsListing(entries, before) && Walked(before, after, entries, live, i, deleted) && !f.listFails
    requires deleted == 0 || Ordered(entries, ByNumber)
    requires var toKill := Max(|entries| - (limit + |live|), 0);
             && deleted <= toKill && (f.deletes.Some? ==> deleted <= f.deletes.value)
             && (i == |entries| || deleted == toKill || f.deletes == Some(deleted))
    requires |entries| == |before|
    ensures CleanedUp(before, after, live, limit, f)
  {
    WalkEnds(before, after, entries, live, i, deleted);
  }
}
