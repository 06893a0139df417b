/** Several components may share a scope, each with its own copy of it: why an Apply conflicts with itself,
    and why retrying it ends. */
module ScopeRetries {
  import opened Wrappers
  import opened Sets
  import opened Kube
  import opened Cluster
  import opened AppStatus
  import opened Apply
  import opened ScopeMembership

  datatype Place = Place(workload: Key, scope: Key)

  predicate IsMissing(ws: seq<Rendered>, s: Server, p: Place) {
    RenderedPair(ws, p.workload, p.scope) && Asks(s, p.scope) && Held(s, p.scope, p.workload) == 0
  }

  /** The rendered pairs whose reference is not there yet. */
  ghost function Lacking(ws: seq<Rendered>, s: Server): (r: set<Place>)
    ensures forall p :: p in r <==> IsMissing(ws, s, p)
  {
    var all := set i, j | 0 <= i < |ws| && 0 <= j < |ws[i].scopes| :: Place(ws[i].manifest.key, ws[i].scopes[j].key);
    forall p | IsMissing(ws, s, p) ensures p in all {
      var i :| 0 <= i < |ws| && ws[i].manifest.key == p.workload && HasScope(ws[i].scopes, p.scope);
      var j :| 0 <= j < |ws[i].scopes| && ws[i].scopes[j].key == p.scope;
      assert p == Place(ws[i].manifest.key, ws[i].scopes[j].key);
    }
    set p | p in all && IsMissing(ws, s, p)
  }

  // ---------- one attempt ----------

  /** An Apply that fails by a conflict has added a reference: strictly fewer are lacking afterwards. */
  lemma ConflictIsProgress(c: Config, status: seq<WorkloadStatus>, ws: seq<Rendered>, s: Server)
    requires Fresh(ws, s) && Applied(c, status, ws, s).result == Conflict
    ensures var t := Applied(c, status, ws, s).server;
            && Lacking(ws, t) < Lacking(ws, s) && |Lacking(ws, t)| < |Lacking(ws, s)|
            && Adding(s, t, ws)
  {
    var p := ApplyWorkloads(c, ws, s);
    var t := Applied(c, status, ws, s).server;
    AddWorkloads(c, ws, s, s, ws);
    OnlyAddingConflicts(c, status, ws, s);
    forall place | place in Lacking(ws, t) ensures place in Lacking(ws, s) {
      AddingCounts(s, t, ws, place.scope, place.workload);
    }
    var k :| k in s.scopes && t.scopes[k] != s.scopes[k];
    assert AddedAtMostOne(s, t, ws, k);
    var x := Refs(t, k)[|Refs(s, k)|].key;
    var added := Place(x, k);
    CountZero(Refs(s, k), x);
    CountAppend(Refs(s, k), [Refs(t, k)[|Refs(s, k)|]], x);
    CountOne(Refs(t, k)[|Refs(s, k)|], x);
    assert added in Lacking(ws, s) && added !in Lacking(ws, t);
    SubsetSize(Lacking(ws, t), Lacking(ws, s));
  }

  lemma {:induction false} DereferenceNeverConflicts(c: Config, status: seq<WorkloadStatus>, ws: seq<Rendered>, s: Server)
    ensures Dereference(c, status, ws, s).result != Conflict
    decreases |status|
  {
    if status != [] {
      RemoveSeveral(c, status[0].reference.key, ToLeave(status[0], ws), s);
      DereferenceNeverConflicts(c, status[1..], ws, RemoveScopes(c, status[0].reference.key, ToLeave(status[0], ws), s).server);
    }
  }

  lemma OnlyAddingConflicts(c: Config, status: seq<WorkloadStatus>, ws: seq<Rendered>, s: Server)
    requires Applied(c, status, ws, s).result == Conflict
    ensures Applied(c, status, ws, s) == ApplyWorkloads(c, ws, s)
  {
    DereferenceNeverConflicts(c, status, ws, ApplyWorkloads(c, ws, s).server);
  }

  /** Two workloads that both lack their reference in one scope cannot both get it in one Apply. */
  lemma SharedScopeConflicts(c: Config, status: seq<WorkloadStatus>, ws: seq<Rendered>, s: Server, x: Key, y: Key, k: Key)
    requires Fresh(ws, s) && x != y
    requires Place(x, k) in Lacking(ws, s) && Place(y, k) in Lacking(ws, s)
    ensures Applied(c, status, ws, s).result != Done
  {
    var p := ApplyWorkloads(c, ws, s);
    AddWorkloads(c, ws, s, s, ws);
    if p.result == Done {
      RenderedIsHeld(p.server, ws, x, k);
      RenderedIsHeld(p.server, ws, y, k);
      var refs := Refs(s, k);
      assert AddedAtMostOne(s, p.server, ws, k);
      CountAppend(refs, [Refs(p.server, k)[|refs|]], x);
      CountAppend(refs, [Refs(p.server, k)[|refs|]], y);
      CountOne(Refs(p.server, k)[|refs|], x);
      CountOne(Refs(p.server, k)[|refs|], y);
      assert false;
    }
  }

  // ---------- attempts ----------

  /** One reconcile: what it rendered, and the server it started from. */
  datatype Attempt = Attempt(config: Config, ws: seq<Rendered>, server: Server)

  function Result(a: Attempt, status: seq<WorkloadStatus>): Progress {
    Applied(a.config, status, a.ws, a.server)
  }

  ghost predicate SamePairs(ws: seq<Rendered>, vs: seq<Rendered>) {
    forall x, k :: RenderedPair(ws, x, k) <==> RenderedPair(vs, x, k)
  }

  /** Each attempt reads the scopes anew, and nobody else writes them; objects, the network and everything
      else that is rendered may change between attempts. */
  ghost predicate IsRetrying(attempts: seq<Attempt>, status: seq<WorkloadStatus>) {
    && (forall t :: 0 <= t < |attempts| ==> Fresh(attempts[t].ws, attempts[t].server))
    && (forall t :: 0 < t < |attempts| ==> SamePairs(attempts[0].ws, attempts[t].ws))
    && (forall t :: 0 < t < |attempts| ==> ScopesAlike(Result(attempts[t - 1], status).server, attempts[t].server))
  }

  lemma SameLacking(ws: seq<Rendered>, vs: seq<Rendered>, s: Server, t: Server)
    requires SamePairs(ws, vs) && ScopesAlike(s, t)
    ensures Lacking(ws, s) == Lacking(vs, t)
  {
    forall p ensures p in Lacking(ws, s) <==> p in Lacking(vs, t) {
      assert RenderedPair(ws, p.workload, p.scope) <==> RenderedPair(vs, p.workload, p.scope);
    }
  }

  /** As long as attempts fail by conflict, each leaves fewer references to add. */
  lemma {:induction false} ConflictsAreBounded(attempts: seq<Attempt>, status: seq<WorkloadStatus>, n: nat)
    requires IsRetrying(attempts, status) && n < |attempts|
    requires forall t :: 0 <= t < n ==> Result(attempts[t], status).result == Conflict
    ensures n + |Lacking(attempts[n].ws, attempts[n].server)| <= |Lacking(attempts[0].ws, attempts[0].server)|
  {
    if n > 0 {
      ConflictsAreBounded(attempts, status, n - 1);
      var a, b := attempts[n - 1], attempts[n];
      ConflictIsProgress(a.config, status, a.ws, a.server);
      assert SamePairs(a.ws, b.ws) by {
        assert SamePairs(attempts[0].ws, b.ws);
        if n > 1 { assert SamePairs(attempts[0].ws, a.ws); }
      }
      SameLacking(a.ws, b.ws, Result(a, status).server, b.server);
    }
  }

  // ---------- what can go wrong besides a conflict ----------

  predicate Writable(m: Manifest, s: Server, uid: string) {
    m.body.owner == Some(uid) && (m.key in s.objects ==> Controllable(s.objects[m.key].body, uid))
  }

  predicate TraitsWritable(ts: seq<RenderedTrait>, s: Server, uid: string) {
    forall j :: 0 <= j < |ts| ==> Writable(ts[j].manifest, s, uid)
  }

  /** A scope that can take a reference: it is defined and, if it asks for references, has the list. */
  predicate Joinable(copy: ScopeCopy, s: Server) {
    (copy.key.apiVersion, copy.key.kind) in s.definitions && (Asks(s, copy.key) ==> copy.scope.refs.Some?)
  }

  predicate AllJoinable(copies: seq<ScopeCopy>, s: Server) {
    forall j :: 0 <= j < |copies| ==> Joinable(copies[j], s)
  }

  ghost predicate WorkloadWellFormed(w: Rendered, s: Server, uid: string) {
    Writable(w.manifest, s, uid) && TraitsWritable(w.traits, s, uid) && AllJoinable(w.scopes, s)
  }

  /** Nobody else controls the objects, the scopes can be joined and left, and the requests get through. */
  ghost predicate WellFormed(a: Attempt, status: seq<WorkloadStatus>) {
    && Quiet(a.config.net) && a.ws != [] && DistinctWorkloads(a.ws)
    && (forall i :: 0 <= i < |a.ws| ==> WorkloadWellFormed(a.ws[i], a.server, a.config.uid))
    && (forall x, k :: StatusPair(status, x, k) && !RenderedPair(a.ws, x, k) ==> Leavable(a.server, k))
  }

  /** What stays of well-formedness while objects are written and references added. */
  ghost predicate StillFine(s: Server, t: Server, uid: string) {
    && s.definitions == t.definitions
    && (forall k :: k in t.objects ==>
          t.objects[k].body.owner == Some(uid) || (k in s.objects && t.objects[k].body.owner == s.objects[k].body.owner))
    && (forall k :: Leavable(s, k) ==> Leavable(t, k))
  }

  lemma StillWritable(m: Manifest, s: Server, t: Server, uid: string)
    requires Writable(m, s, uid) && StillFine(s, t, uid)
    ensures Writable(m, t, uid)
  {
  }

  lemma ObjectQuietly(c: Config, m: Manifest, patching: bool, s: Server)
    requires Quiet(c.net) && Writable(m, s, c.uid)
    ensures var p := ApplyObject(c, m, patching, s); p.result == Done && StillFine(s, p.server, c.uid)
  {
  }

  lemma {:induction false} TraitsQuietly(c: Config, ts: seq<RenderedTrait>, s: Server)
    requires Quiet(c.net) && TraitsWritable(ts, s, c.uid)
    ensures var p := ApplyTraits(c, ts, s); p.result == Done && StillFine(s, p.server, c.uid)
    decreases |ts|
  {
    if ts != [] {
      var p := if ts[0].hasDep then Progress(s, Done) else ApplyObject(c, ts[0].manifest, false, s);
      ObjectQuietly(c, ts[0].manifest, false, s);
      forall j | 0 < j < |ts| ensures Writable(ts[j].manifest, p.server, c.uid) {
        StillWritable(ts[j].manifest, s, p.server, c.uid);
      }
      TraitsQuietly(c, ts[1..], p.server);
    }
  }

  lemma ScopeQuietly(c: Config, x: Key, copy: ScopeCopy, s: Server, before: Server, ws: seq<Rendered>)
    requires Quiet(c.net) && Joinable(copy, s) && FreshCopies([copy], before) && Adding(before, s, ws)
    ensures var p := ApplyScope(c, x, copy, s);
            (p.result == Done || p.result == Conflict) && StillFine(s, p.server, c.uid)
  {
    assert [copy][0] == copy;
    ScopeWrite(c, x, copy, s, before, ws);
    var p := ApplyScope(c, x, copy, s);
    forall k | Leavable(s, k) ensures Leavable(p.server, k) {
      if p.server.scopes != s.scopes && k != copy.key { assert k in p.server.scopes ==> k in s.scopes; }
    }
  }

  lemma {:induction false} ScopesQuietly(c: Config, x: Key, copies: seq<ScopeCopy>, s: Server, before: Server, ws: seq<Rendered>)
    requires Quiet(c.net) && AllJoinable(copies, s) && FreshCopies(copies, before) && Adding(before, s, ws)
    requires forall j :: 0 <= j < |copies| ==> RenderedPair(ws, x, copies[j].key)
    ensures var p := ApplyScopes(c, x, copies, s);
            (p.result == Done || p.result == Conflict) && StillFine(s, p.server, c.uid)
    decreases |copies|
  {
    if copies != [] {
      var p := ApplyScope(c, x, copies[0], s);
      ScopeQuietly(c, x, copies[0], s, before, ws);
      AddScope(c, x, copies[0], s, before, ws);
      if p.result == Done {
        ScopesQuietly(c, x, copies[1..], p.server, before, ws);
      }
    }
  }

  lemma WorkloadQuietly(c: Config, w: Rendered, s: Server, before: Server, ws: seq<Rendered>)
    requires Quiet(c.net) && WorkloadWellFormed(w, s, c.uid)
    requires w in ws && FreshCopies(w.scopes, before) && Adding(before, s, ws)
    ensures var p := ApplyWorkload(c, w, s);
            (p.result == Done || p.result == Conflict) && StillFine(s, p.server, c.uid)
  {
    ObjectQuietly(c, w.manifest, true, s);
    ObjectLeavesScopes(c, w.manifest, true, s);
    var p := if w.hasDep then Progress(s, Done) else ApplyObject(c, w.manifest, true, s);
    AddingAlike(before, s, p.server, ws);
    forall j | 0 <= j < |w.traits| ensures Writable(w.traits[j].manifest, p.server, c.uid) {
      StillWritable(w.traits[j].manifest, s, p.server, c.uid);
    }
    TraitsQuietly(c, w.traits, p.server);
    TraitsLeaveScopes(c, w.traits, p.server);
    var q := ApplyTraits(c, w.traits, p.server);
    AddingAlike(before, p.server, q.server, ws);
    ScopesQuietly(c, w.manifest.key, w.scopes, q.server, before, ws);
  }

  lemma {:induction false} WorkloadsQuietly(c: Config, rest: seq<Rendered>, s: Server, before: Server, ws: seq<Rendered>)
    requires Quiet(c.net) && forall i :: 0 <= i < |rest| ==> WorkloadWellFormed(rest[i], s, c.uid)
    requires Fresh(rest, before) && Adding(before, s, ws) && forall w :: w in rest ==> w in ws
    ensures var p := ApplyWorkloads(c, rest, s);
            (p.result == Done || p.result == Conflict) && StillFine(s, p.server, c.uid)
    decreases |rest|
  {
    if rest != [] {
      var p := ApplyWorkload(c, rest[0], s);
      WorkloadQuietly(c, rest[0], s, before, ws);
      AddWorkload(c, rest[0], s, before, ws);
      if p.result == Done {
        forall i | 0 < i < |rest| ensures WorkloadWellFormed(rest[i], p.server, c.uid) {
          StillWellFormed(rest[i], s, p.server, c.uid);
        }
        WorkloadsQuietly(c, rest[1..], p.server, before, ws);
      }
    }
  }

  lemma StillWellFormed(w: Rendered, s: Server, t: Server, uid: string)
    requires WorkloadWellFormed(w, s, uid) && StillFine(s, t, uid)
    ensures WorkloadWellFormed(w, t, uid)
  {
    forall j | 0 <= j < |w.scopes| ensures Joinable(w.scopes[j], t) {
      assert Joinable(w.scopes[j], s);
    }
  }

  /** A well-formed attempt either succeeds or conflicts with itself. */
  lemma NothingElseGoesWrong(a: Attempt, status: seq<WorkloadStatus>)
    requires WellFormed(a, status) && Fresh(a.ws, a.server)
    ensures Result(a, status).result == Done || Result(a, status).result == Conflict
  {
    WorkloadsQuietly(a.config, a.ws, a.server, a.server, a.ws);
    var p := ApplyWorkloads(a.config, a.ws, a.server);
    if p.result == Done {
      DereferenceQuietly(a.config, status, a.ws, p.server);
    }
  }

  /** Retried with fresh reads and no other writer, a well-formed application is applied within as many
      attempts as references were lacking, plus one. */
  lemma RetriesSucceed(attempts: seq<Attempt>, status: seq<WorkloadStatus>) returns (n: nat)
    requires IsRetrying(attempts, status) && forall t :: 0 <= t < |attempts| ==> WellFormed(attempts[t], status)
    requires attempts != [] && |attempts| == |Lacking(attempts[0].ws, attempts[0].server)| + 1
    ensures n < |attempts| && Result(attempts[n], status).result == Done
  {
    n := 0;
    while n < |attempts| - 1 && Result(attempts[n], status).result == Conflict
      invariant n < |attempts|
      invariant forall t :: 0 <= t < n ==> Result(attempts[t], status).result == Conflict
    {
      n := n + 1;
    }
    ConflictsAreBounded(attempts, status, n);
    var a := attempts[n];
    NothingElseGoesWrong(a, status);
    if Result(a, status).result == Conflict {
      ConflictIsProgress(a.config, status, a.ws, a.server);
      assert false;
    }
  }

  // ---------- stale copies ----------

  /** A copy read at some time in the past: as long as the version is the same, so is the scope. */
  predicate Honest(copy: ScopeCopy, s: Server) {
    && copy.key in s.scopes && copy.scope.version <= s.scopes[copy.key].version
    && (copy.scope.version == s.scopes[copy.key].version ==> copy.scope == s.scopes[copy.key])
  }

  ghost predicate HonestCopies(copies: seq<ScopeCopy>, s: Server) {
    forall j :: 0 <= j < |copies| ==> Honest(copies[j], s)
  }

  /** Every scope is as before, or newer and longer: nothing that was there is lost or moved. */
  ghost predicate Later(s: Server, t: Server) {
    && s.scopes.Keys == t.scopes.Keys
    && forall k :: k in s.scopes ==>
         t.scopes[k] == s.scopes[k] || (s.scopes[k].version < t.scopes[k].version && Refs(s, k) <= Refs(t, k))
  }

  lemma StayHonest(copies: seq<ScopeCopy>, s: Server, t: Server)
    requires HonestCopies(copies, s) && Later(s, t)
    ensures HonestCopies(copies, t)
  {
    forall j | 0 <= j < |copies| ensures Honest(copies[j], t) {
      assert Honest(copies[j], s);
    }
  }

  lemma LaterTwice(s: Server, t: Server, u: Server)
    requires Later(s, t) && Later(t, u)
    ensures Later(s, u)
  {
    forall k | k in s.scopes
      ensures u.scopes[k] == s.scopes[k] || (s.scopes[k].version < u.scopes[k].version && Refs(s, k) <= Refs(u, k))
    {
      assert k in t.scopes;
    }
  }

  /** A write from a copy either takes nothing away from what the server holds by now, or is refused. */
  lemma NoUpdateIsLost(c: Config, x: Key, copy: ScopeCopy, s: Server)
    requires Honest(copy, s)
    ensures var t := ApplyScope(c, x, copy, s).server;
            t.scopes == s.scopes || (Refs(t, copy.key) == Refs(s, copy.key) + [TypedReference(x, "")] && Held(s, copy.key, x) == 0)
    ensures Later(s, ApplyScope(c, x, copy, s).server)
  {
    CountZero(Refs(s, copy.key), x);
  }

  lemma {:induction false} NoUpdateOfSeveralIsLost(c: Config, x: Key, copies: seq<ScopeCopy>, s: Server)
    requires HonestCopies(copies, s)
    ensures Later(s, ApplyScopes(c, x, copies, s).server)
    decreases |copies|
  {
    if copies != [] {
      NoUpdateIsLost(c, x, copies[0], s);
      var p := ApplyScope(c, x, copies[0], s);
      if p.result == Done {
        StayHonest(copies, s, p.server);
        forall j | 0 <= j < |copies[1..]| ensures Honest(copies[1..][j], p.server) {
          assert copies[1..][j] == copies[j + 1];
        }
        NoUpdateOfSeveralIsLost(c, x, copies[1..], p.server);
        LaterTwice(s, p.server, ApplyScopes(c, x, copies[1..], p.server).server);
      }
    }
  }

  lemma NoUpdateOfWorkloadIsLost(c: Config, w: Rendered, s: Server)
    requires HonestCopies(w.scopes, s)
    ensures Later(s, ApplyWorkload(c, w, s).server)
  {
    ObjectLeavesScopes(c, w.manifest, true, s);
    var p := if w.hasDep then Progress(s, Done) else ApplyObject(c, w.manifest, true, s);
    TraitsLeaveScopes(c, w.traits, p.server);
    var q := ApplyTraits(c, w.traits, p.server);
    assert q.server.scopes == s.scopes;
    StayHonest(w.scopes, s, q.server);
    NoUpdateOfSeveralIsLost(c, w.manifest.key, w.scopes, q.server);
  }

  /** Applying workloads from copies of any age, and however it ends, loses no reference of any scope. */
  lemma {:induction false} NoApplyLosesUpdates(c: Config, ws: seq<Rendered>, s: Server)
    requires forall i :: 0 <= i < |ws| ==> HonestCopies(ws[i].scopes, s)
    ensures Later(s, ApplyWorkloads(c, ws, s).server)
    decreases |ws|
  {
    if ws != [] {
      NoUpdateOfWorkloadIsLost(c, ws[0], s);
      var p := ApplyWorkload(c, ws[0], s);
      if p.result == Done {
        forall i | 0 <= i < |ws[1..]| ensures HonestCopies(ws[1..][i].scopes, p.server) {
          assert ws[1..][i] == ws[i + 1];
          StayHonest(ws[i + 1].scopes, s, p.server);
        }
        NoApplyLosesUpdates(c, ws[1..], p.server);
        LaterTwice(s, p.server, ApplyWorkloads(c, ws[1..], p.server).server);
      }
    }
  }
}
