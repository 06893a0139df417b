/** The workload references of scopes: what applying and finalizing make of them. */
module ScopeMembership {
  import opened Wrappers
  import opened Kube
  import opened Cluster
  import opened AppStatus
  import opened Apply

  // ---------- counting references ----------

  function Count(refs: seq<TypedReference>, x: Key): nat {
    if refs == [] then 0
    else Count(refs[..|refs| - 1], x) + (if refs[|refs| - 1].key == x then 1 else 0)
  }

  function Refs(s: Server, k: Key): seq<TypedReference> {
    if k in s.scopes && s.scopes[k].refs.Some? then s.scopes[k].refs.value else []
  }

  /** How often scope k refers to workload x. */
  function Held(s: Server, k: Key, x: Key): nat {
    Count(Refs(s, k), x)
  }

  /** How often scope k holds exactly this reference. */
  ghost function Copies(s: Server, k: Key, r: TypedReference): nat {
    multiset(Refs(s, k))[r]
  }

  predicate Asks(s: Server, k: Key) {
    (k.apiVersion, k.kind) in s.definitions && s.definitions[(k.apiVersion, k.kind)] != ""
  }

  lemma {:induction false} CountAppend(a: seq<TypedReference>, b: seq<TypedReference>, x: Key)
    ensures Count(a + b, x) == Count(a, x) + Count(b, x)
  {
    if b == [] {
      assert a + b == a;
    } else {
      var n := |b| - 1;
      CountAppend(a, b[..n], x);
      assert (a + b)[..|a + b| - 1] == a + b[..n];
    }
  }

  lemma {:induction false} CountZero(refs: seq<TypedReference>, x: Key)
    ensures Count(refs, x) == 0 <==> IndexOf(refs, x) < 0
  {
    if refs != [] {
      var n := |refs| - 1;
      CountZero(refs[..n], x);
      var i, j := IndexOf(refs, x), IndexOf(refs[..n], x);
      if j >= 0 { assert refs[j].key == x; }
      if i >= 0 && i < n { assert refs[..n][i].key == x; }
    }
  }

  lemma CountOne(r: TypedReference, x: Key)
    ensures Count([r], x) == if r.key == x then 1 else 0
  {
    assert [r][..0] == [];
  }

  lemma CountAround(a: seq<TypedReference>, r: TypedReference, b: seq<TypedReference>, last: TypedReference, x: Key)
    ensures Count(a + [last] + b, x) == Count(a + [r] + b + [last], x) - if r.key == x then 1 else 0
  {
    CountAppend(a + [r] + b, [last], x);
    CountAppend(a + [r], b, x);
    CountAppend(a, [r], x);
    CountAppend(a + [last], b, x);
    CountAppend(a, [last], x);
    CountOne(r, x);
  }

  lemma WithoutShape(refs: seq<TypedReference>, i: nat)
    requires i < |refs| - 1
    ensures var n := |refs| - 1;
            && refs == refs[..i] + [refs[i]] + refs[i + 1..n] + [refs[n]]
            && Without(refs, i) == refs[..i] + [refs[n]] + refs[i + 1..n]
  {
  }

  lemma SwapCount(refs: seq<TypedReference>, i: nat, x: Key)
    requires i < |refs|
    ensures Count(Without(refs, i), x) == Count(refs, x) - if refs[i].key == x then 1 else 0
  {
    var n := |refs| - 1;
    if i == n {
      assert Without(refs, i) == refs[..n];
    } else {
      WithoutShape(refs, i);
      CountAround(refs[..i], refs[i], refs[i + 1..n], refs[n], x);
    }
  }

  /** Swapping the last reference into the hole loses exactly the one removed. */
  lemma SwapWithLastRemovesOne(refs: seq<TypedReference>, i: nat)
    requires i < |refs|
    ensures multiset(Without(refs, i)) == multiset(refs) - multiset{refs[i]}
    ensures forall x :: Count(Without(refs, i), x) == Count(refs, x) - if refs[i].key == x then 1 else 0
  {
    forall x ensures Count(Without(refs, i), x) == Count(refs, x) - if refs[i].key == x then 1 else 0 {
      SwapCount(refs, i, x);
    }
    SwapMultiset(refs, i);
  }

  lemma SwapMultiset(refs: seq<TypedReference>, i: nat)
    requires i < |refs|
    ensures multiset(Without(refs, i)) == multiset(refs) - multiset{refs[i]}
  {
    var n := |refs| - 1;
    if i == n {
      assert refs == refs[..n] + [refs[n]];
      assert Without(refs, i) == refs[..n];
    } else {
      WithoutShape(refs, i);
      MultisetAround(refs[..i], refs[i], refs[i + 1..n], refs[n]);
    }
  }

  lemma MultisetAround<T>(a: seq<T>, r: T, b: seq<T>, last: T)
    ensures multiset(a + [last] + b) == multiset(a + [r] + b + [last]) - multiset{r}
  {
  }

  // ---------- who is meant to be where ----------

  /** Workload x is rendered into scope k. */
  predicate RenderedPair(ws: seq<Rendered>, x: Key, k: Key) {
    exists i :: 0 <= i < |ws| && ws[i].manifest.key == x && HasScope(ws[i].scopes, k)
  }

  predicate HasRef(scopes: seq<WorkloadScope>, k: Key) {
    exists j :: 0 <= j < |scopes| && scopes[j].reference.key == k
  }

  /** The status records workload x in scope k. */
  predicate StatusPair(status: seq<WorkloadStatus>, x: Key, k: Key) {
    exists i :: 0 <= i < |status| && status[i].reference.key == x && HasRef(status[i].scopes, k)
  }

  predicate DistinctWorkloads(ws: seq<Rendered>) {
    forall i, j :: 0 <= i < j < |ws| ==> ws[i].manifest.key != ws[j].manifest.key
  }

  /** Every copy is what the server holds. */
  predicate FreshCopies(copies: seq<ScopeCopy>, s: Server) {
    forall j :: 0 <= j < |copies| ==> copies[j].key in s.scopes && copies[j].scope == s.scopes[copies[j].key]
  }

  predicate Fresh(ws: seq<Rendered>, s: Server) {
    forall i :: 0 <= i < |ws| ==> FreshCopies(ws[i].scopes, s)
  }

  // ---------- objects leave scopes alone ----------

  predicate ScopesAlike(s: Server, t: Server) {
    s.scopes == t.scopes && s.definitions == t.definitions
  }

  lemma ObjectLeavesScopes(c: Config, m: Manifest, patching: bool, s: Server)
    ensures var p := ApplyObject(c, m, patching, s); ScopesAlike(s, p.server) && p.result != Conflict
  {
  }

  lemma {:induction false} TraitsLeaveScopes(c: Config, ts: seq<RenderedTrait>, s: Server)
    ensures var p := ApplyTraits(c, ts, s); ScopesAlike(s, p.server) && p.result != Conflict
    decreases |ts|
  {
    if ts != [] {
      ObjectLeavesScopes(c, ts[0].manifest, false, s);
      TraitsLeaveScopes(c, ts[1..], if ts[0].hasDep then s else ApplyObject(c, ts[0].manifest, false, s).server);
    }
  }

  // ---------- adding references ----------

  /** Scope k got one reference, to a workload that is rendered into it and was not there. */
  predicate AddedOne(before: Scope, after: Scope, ws: seq<Rendered>, k: Key) {
    && before.refs.Some? && after.refs.Some? && after.version == before.version + 1
    && |after.refs.value| == |before.refs.value| + 1
    && var r := after.refs.value[|before.refs.value|];
       && after.refs.value == before.refs.value + [r] && r.uid == ""
       && IndexOf(before.refs.value, r.key) < 0 && RenderedPair(ws, r.key, k)
  }

  predicate AddedAtMostOne(before: Server, s: Server, ws: seq<Rendered>, k: Key)
    requires s.scopes.Keys == before.scopes.Keys
  {
    k in before.scopes && s.scopes[k] != before.scopes[k] ==>
      Asks(before, k) && AddedOne(before.scopes[k], s.scopes[k], ws, k)
  }

  /** Since the copies were read, every scope got at most one reference. */
  ghost predicate Adding(before: Server, s: Server, ws: seq<Rendered>) {
    && s.scopes.Keys == before.scopes.Keys && s.definitions == before.definitions
    && forall k :: AddedAtMostOne(before, s, ws, k)
  }

  predicate Grown(before: Server, s: Server, k: Key) {
    before.scopes.Keys == s.scopes.Keys && Refs(before, k) <= Refs(s, k)
  }

  /** applyScope writes only a scope nobody wrote since the copy was read. */
  lemma ScopeWrite(c: Config, x: Key, copy: ScopeCopy, s: Server, before: Server, ws: seq<Rendered>)
    requires FreshCopies([copy], before) && Adding(before, s, ws)
    ensures var p := ApplyScope(c, x, copy, s);
            && p.server.objects == s.objects && p.server.definitions == s.definitions
            && (p.result == Conflict ==> s.scopes[copy.key] != before.scopes[copy.key])
            && if p.server.scopes == s.scopes then
                 p.result == Done && Asks(s, copy.key) ==> IndexOf(Refs(before, copy.key), x) >= 0
               else
                 && copy.key in s.scopes && s.scopes[copy.key] == before.scopes[copy.key] == copy.scope
                 && Asks(s, copy.key) && copy.scope.refs.Some? && IndexOf(copy.scope.refs.value, x) < 0
                 && p.server.scopes == s.scopes[copy.key :=
                      Scope(copy.scope.version + 1, Some(copy.scope.refs.value + [TypedReference(x, "")]))]
  {
    assert [copy][0] == copy;
    assert AddedAtMostOne(before, s, ws, copy.key);
    var p := ApplyScope(c, x, copy, s);
    if copy.scope.refs.Some? && s.scopes[copy.key].version == copy.scope.version {
      var after := Scope(copy.scope.version + 1, Some(copy.scope.refs.value + [TypedReference(x, "")]));
      assert s.scopes[copy.key := after][copy.key] != s.scopes[copy.key];
    }
  }

  /** What one applyScope does, when the copy was fresh at first and every write since made a new version. */
  lemma AddScope(c: Config, x: Key, copy: ScopeCopy, s: Server, before: Server, ws: seq<Rendered>)
    requires FreshCopies([copy], before) && Adding(before, s, ws) && RenderedPair(ws, x, copy.key)
    ensures var p := ApplyScope(c, x, copy, s);
            && Adding(before, p.server, ws) && (forall k :: Grown(s, p.server, k))
            && (p.result == Done && Asks(before, copy.key) ==> Held(p.server, copy.key, x) > 0)
            && (p.result == Conflict ==> Progressed(before, p.server))
  {
    var p := ApplyScope(c, x, copy, s);
    assert [copy][0] == copy;
    ScopeWrite(c, x, copy, s, before, ws);
    if p.server.scopes == s.scopes {
      AddingAlike(before, s, p.server, ws);
      CountZero(Refs(before, copy.key), x);
      AddedKeepsHeld(before, p.server, ws, copy.key, x);
      if p.result == Conflict { assert p.server.scopes[copy.key] != before.scopes[copy.key]; }
    } else {
      var refs := copy.scope.refs.value;
      CountAppend(refs, [TypedReference(x, "")], x);
      CountOne(TypedReference(x, ""), x);
      WriteAdds(before, s, p.server, ws, copy.key, x);
    }
  }

  lemma WriteAdds(before: Server, s: Server, t: Server, ws: seq<Rendered>, k: Key, x: Key)
    requires Adding(before, s, ws) && RenderedPair(ws, x, k) && t.definitions == s.definitions
    requires k in s.scopes && s.scopes[k] == before.scopes[k] && s.scopes[k].refs.Some? && Asks(s, k)
    requires IndexOf(s.scopes[k].refs.value, x) < 0
    requires t.scopes == s.scopes[k := Scope(s.scopes[k].version + 1, Some(s.scopes[k].refs.value + [TypedReference(x, "")]))]
    ensures Adding(before, t, ws) && (forall l :: Grown(s, t, l)) && Progressed(before, t)
  {
    forall l ensures AddedAtMostOne(before, t, ws, l) && Grown(s, t, l) {
      assert AddedAtMostOne(before, s, ws, l);
    }
    assert t.scopes[k] != before.scopes[k];
  }

  lemma AddedKeepsHeld(before: Server, s: Server, ws: seq<Rendered>, k: Key, x: Key)
    requires Adding(before, s, ws)
    ensures Held(before, k, x) <= Held(s, k, x)
  {
    assert AddedAtMostOne(before, s, ws, k);
    if k in before.scopes && s.scopes[k] != before.scopes[k] {
      var refs := Refs(before, k);
      CountAppend(refs, [Refs(s, k)[|refs|]], x);
    }
  }

  lemma GrownKeepsHeld(s: Server, t: Server, k: Key, x: Key)
    requires Grown(s, t, k)
    ensures Held(s, k, x) <= Held(t, k, x)
  {
    var a, b := Refs(s, k), Refs(t, k);
    assert b == a + b[|a|..];
    CountAppend(a, b[|a|..], x);
  }

  ghost predicate AddedAll(s: Server, x: Key, copies: seq<ScopeCopy>) {
    forall j :: 0 <= j < |copies| && Asks(s, copies[j].key) ==> Held(s, copies[j].key, x) > 0
  }

  predicate Progressed(before: Server, s: Server) {
    exists k :: k in before.scopes && k in s.scopes && s.scopes[k] != before.scopes[k]
  }

  lemma {:induction false} AddScopes(c: Config, x: Key, copies: seq<ScopeCopy>, s: Server, before: Server, ws: seq<Rendered>)
    requires FreshCopies(copies, before) && Adding(before, s, ws)
    requires forall j :: 0 <= j < |copies| ==> RenderedPair(ws, x, copies[j].key)
    ensures var p := ApplyScopes(c, x, copies, s);
            && Adding(before, p.server, ws) && (forall k :: Grown(s, p.server, k))
            && (p.result == Done ==> AddedAll(p.server, x, copies))
            && (p.result == Conflict ==> Progressed(before, p.server))
    decreases |copies|
  {
    if copies != [] {
      var p := ApplyScope(c, x, copies[0], s);
      AddScope(c, x, copies[0], s, before, ws);
      if p.result == Done {
        AddScopes(c, x, copies[1..], p.server, before, ws);
        var q := ApplyScopes(c, x, copies[1..], p.server);
        assert Grown(p.server, q.server, copies[0].key);
        GrownKeepsHeld(p.server, q.server, copies[0].key, x);
        assert forall k :: Grown(s, q.server, k) by { GrownTwice(s, p.server, q.server); }
        if q.result == Done {
          forall j | 0 <= j < |copies| && Asks(q.server, copies[j].key) ensures Held(q.server, copies[j].key, x) > 0 {
            if j > 0 { assert copies[j] == copies[1..][j - 1]; }
          }
        }
      }
    }
  }

  lemma GrownTwice(s: Server, t: Server, u: Server)
    requires (forall k :: Grown(s, t, k)) && (forall k :: Grown(t, u, k))
    ensures forall k :: Grown(s, u, k)
  {
    forall k ensures Grown(s, u, k) {
      assert Grown(s, t, k) && Grown(t, u, k);
    }
  }

  /** One workload. */
  lemma AddWorkload(c: Config, w: Rendered, s: Server, before: Server, ws: seq<Rendered>)
    requires w in ws && FreshCopies(w.scopes, before) && Adding(before, s, ws)
    ensures var p := ApplyWorkload(c, w, s);
            && Adding(before, p.server, ws) && (forall k :: Grown(s, p.server, k))
            && (p.result == Done ==> AddedAll(p.server, w.manifest.key, w.scopes))
            && (p.result == Conflict ==> Progressed(before, p.server))
  {
    ObjectLeavesScopes(c, w.manifest, true, s);
    var p := if w.hasDep then Progress(s, Done) else ApplyObject(c, w.manifest, true, s);
    AddingAlike(before, s, p.server, ws);
    if p.result == Done {
      TraitsLeaveScopes(c, w.traits, p.server);
      var q := ApplyTraits(c, w.traits, p.server);
      AddingAlike(before, p.server, q.server, ws);
      if q.result == Done {
        forall j | 0 <= j < |w.scopes| ensures RenderedPair(ws, w.manifest.key, w.scopes[j].key) {}
        AddScopes(c, w.manifest.key, w.scopes, q.server, before, ws);
        GrownTwice(s, q.server, ApplyScopes(c, w.manifest.key, w.scopes, q.server).server);
      }
    }
  }

  lemma AddingAlike(before: Server, s: Server, t: Server, ws: seq<Rendered>)
    requires Adding(before, s, ws) && ScopesAlike(s, t)
    ensures Adding(before, t, ws) && forall k :: Grown(s, t, k)
  {
    forall k ensures AddedAtMostOne(before, t, ws, k) {
      assert AddedAtMostOne(before, s, ws, k);
    }
  }

  ghost predicate EveryoneIn(s: Server, ws: seq<Rendered>) {
    forall i :: 0 <= i < |ws| ==> AddedAll(s, ws[i].manifest.key, ws[i].scopes)
  }

  lemma {:induction false} AddWorkloads(c: Config, rest: seq<Rendered>, s: Server, before: Server, ws: seq<Rendered>)
    requires Fresh(rest, before) && Adding(before, s, ws) && forall w :: w in rest ==> w in ws
    ensures var p := ApplyWorkloads(c, rest, s);
            && Adding(before, p.server, ws) && (forall k :: Grown(s, p.server, k))
            && (p.result == Done ==> EveryoneIn(p.server, rest))
            && (p.result == Conflict ==> Progressed(before, p.server))
    decreases |rest|
  {
    if rest != [] {
      var w := rest[0];
      var p := ApplyWorkload(c, w, s);
      AddWorkload(c, w, s, before, ws);
      if p.result == Done {
        AddWorkloads(c, rest[1..], p.server, before, ws);
        var q := ApplyWorkloads(c, rest[1..], p.server);
        GrownTwice(s, p.server, q.server);
        if q.result == Done {
          StaysIn(p.server, q.server, w.manifest.key, w.scopes);
          forall i | 0 <= i < |rest| ensures AddedAll(q.server, rest[i].manifest.key, rest[i].scopes) {
            if i > 0 { assert rest[i] == rest[1..][i - 1]; }
          }
        }
      }
    }
  }

  lemma StaysIn(s: Server, t: Server, x: Key, copies: seq<ScopeCopy>)
    requires AddedAll(s, x, copies) && (forall k :: Grown(s, t, k)) && s.definitions == t.definitions
    ensures AddedAll(t, x, copies)
  {
    forall j | 0 <= j < |copies| && Asks(t, copies[j].key) ensures Held(t, copies[j].key, x) > 0 {
      GrownKeepsHeld(s, t, copies[j].key, x);
    }
  }

  // ---------- removing references ----------

  /** From s to t, scope k may have lost references to x, and nothing else changed. */
  ghost predicate OnlyLost(s: Server, t: Server, lost: (Key, Key) -> bool) {
    && s.definitions == t.definitions && s.scopes.Keys == t.scopes.Keys && s.objects == t.objects
    && (forall k, x :: Held(t, k, x) <= Held(s, k, x))
    && (forall k, x :: !lost(k, x) ==> Held(t, k, x) == Held(s, k, x))
    && (forall k, r: TypedReference :: !lost(k, r.key) ==> Copies(t, k, r) == Copies(s, k, r))
    && (forall k :: k in s.scopes && !Asks(s, k) ==> t.scopes[k] == s.scopes[k])
  }

  ghost function One(k: Key, x: Key): (Key, Key) -> bool {
    (l, y) => l == k && y == x
  }

  lemma RemovalWrite(c: Config, x: Key, k: Key, s: Server)
    ensures var p := RemoveScope(c, x, k, s);
            && p.server.objects == s.objects && p.server.definitions == s.definitions && p.result != Conflict
            && if p.server.scopes == s.scopes then
                 p.result == Done ==> IndexOf(Refs(s, k), x) < 0
               else
                 && k in s.scopes && s.scopes[k].refs.Some? && Asks(s, k) && IndexOf(Refs(s, k), x) >= 0
                 && p.server.scopes == s.scopes[k := Scope(s.scopes[k].version + 1, Some(Without(Refs(s, k), IndexOf(Refs(s, k), x))))]
  {
    var i := IndexOf(Refs(s, k), x);
    if k in s.scopes && s.scopes[k].refs.Some? && i >= 0 {
      var after := Scope(s.scopes[k].version + 1, Some(Without(Refs(s, k), i)));
      assert s.scopes[k := after][k] != s.scopes[k];
    }
  }

  lemma RemoveOne(c: Config, x: Key, k: Key, s: Server)
    ensures var p := RemoveScope(c, x, k, s);
            && OnlyLost(s, p.server, One(k, x)) && p.result != Conflict
            && (p.result == Done ==> Held(p.server, k, x) == if Held(s, k, x) > 0 then Held(s, k, x) - 1 else 0)
  {
    RemovalWrite(c, x, k, s);
    CountZero(Refs(s, k), x);
    var p := RemoveScope(c, x, k, s);
    if p.server.scopes != s.scopes {
      WriteRemoves(s, p.server, k, x);
    }
  }

  lemma WriteRemoves(s: Server, t: Server, k: Key, x: Key)
    requires t.objects == s.objects && t.definitions == s.definitions
    requires k in s.scopes && s.scopes[k].refs.Some? && Asks(s, k) && IndexOf(Refs(s, k), x) >= 0
    requires t.scopes == s.scopes[k := Scope(s.scopes[k].version + 1, Some(Without(Refs(s, k), IndexOf(Refs(s, k), x))))]
    ensures OnlyLost(s, t, One(k, x)) && Held(t, k, x) == Held(s, k, x) - 1
  {
    var refs, i := Refs(s, k), IndexOf(Refs(s, k), x);
    assert Refs(t, k) == Without(refs, i) && forall l :: l != k ==> Refs(t, l) == Refs(s, l);
    forall l, y ensures Held(t, l, y) == Held(s, l, y) - if One(k, x)(l, y) then 1 else 0 {
      if l == k { SwapCount(refs, i, y); }
    }
    forall l, r: TypedReference | !One(k, x)(l, r.key) ensures Copies(t, l, r) == Copies(s, l, r) {
      if l == k { SwapKeepsOther(refs, i, r); }
    }
  }

  lemma SwapKeepsOther(refs: seq<TypedReference>, i: nat, r: TypedReference)
    requires i < |refs| && r != refs[i]
    ensures multiset(Without(refs, i))[r] == multiset(refs)[r]
  {
    SwapMultiset(refs, i);
  }

  ghost function AnyOf(x: Key, scopes: seq<WorkloadScope>): (Key, Key) -> bool {
    (l, y) => y == x && HasRef(scopes, l)
  }

  lemma LostTwice(s: Server, t: Server, u: Server, a: (Key, Key) -> bool, b: (Key, Key) -> bool, c: (Key, Key) -> bool)
    requires OnlyLost(s, t, a) && OnlyLost(t, u, b) && forall k, x :: a(k, x) || b(k, x) ==> c(k, x)
    ensures OnlyLost(s, u, c)
  {
    forall k, x ensures Held(u, k, x) <= Held(s, k, x) && (!c(k, x) ==> Held(u, k, x) == Held(s, k, x)) {
      assert Held(u, k, x) <= Held(t, k, x) <= Held(s, k, x);
    }
    forall k, r: TypedReference | !c(k, r.key) ensures Copies(u, k, r) == Copies(s, k, r) {
      assert !a(k, r.key) && !b(k, r.key);
    }
  }

  lemma {:induction false} RemoveSeveral(c: Config, x: Key, scopes: seq<WorkloadScope>, s: Server)
    ensures var p := RemoveScopes(c, x, scopes, s);
            && OnlyLost(s, p.server, AnyOf(x, scopes)) && p.result != Conflict
            && (p.result == Done ==> forall k :: HasRef(scopes, k) && Held(s, k, x) <= 1 ==> Held(p.server, k, x) == 0)
    decreases |scopes|
  {
    if scopes != [] {
      var k := scopes[0].reference.key;
      var p := RemoveScope(c, x, k, s);
      RemoveOne(c, x, k, s);
      if p.result == Done {
        RemoveSeveral(c, x, scopes[1..], p.server);
        var q := RemoveScopes(c, x, scopes[1..], p.server);
        HasRefSplit(scopes);
        LostTwice(s, p.server, q.server, One(k, x), AnyOf(x, scopes[1..]), AnyOf(x, scopes));
        if q.result == Done {
          forall l | HasRef(scopes, l) && Held(s, l, x) <= 1 ensures Held(q.server, l, x) == 0 {
            assert Held(q.server, l, x) <= Held(p.server, l, x) <= Held(s, l, x);
            assert l == k || HasRef(scopes[1..], l);
          }
        }
      } else {
        HasRefSplit(scopes);
        LostTwice(s, s, p.server, AnyOf(x, []), One(k, x), AnyOf(x, scopes));
      }
    }
  }

  lemma HasRefSplit(scopes: seq<WorkloadScope>)
    requires scopes != []
    ensures forall k :: HasRef(scopes, k) <==> scopes[0].reference.key == k || HasRef(scopes[1..], k)
  {
    forall k ensures HasRef(scopes, k) <==> scopes[0].reference.key == k || HasRef(scopes[1..], k) {
      if j :| 0 < j < |scopes| && scopes[j].reference.key == k { assert scopes[1..][j - 1] == scopes[j]; }
      if scopes[0].reference.key == k { assert HasRef(scopes, k); }
    }
  }

  // ---------- which references are removed ----------

  lemma {:induction false} DroppedExactly(recorded: seq<WorkloadScope>, rendered: seq<ScopeCopy>, k: Key)
    ensures HasRef(Dropped(recorded, rendered), k) <==> HasRef(recorded, k) && !HasScope(rendered, k)
  {
    if recorded != [] {
      var n := |recorded| - 1;
      DroppedExactly(recorded[..n], rendered, k);
      HasRefLast(recorded[..n], recorded[n], k);
      HasRefLast(Dropped(recorded[..n], rendered), recorded[n], k);
      assert recorded == recorded[..n] + [recorded[n]];
    }
  }

  lemma HasRefLast(scopes: seq<WorkloadScope>, last: WorkloadScope, k: Key)
    ensures HasRef(scopes + [last], k) <==> HasRef(scopes, k) || last.reference.key == k
  {
    var all := scopes + [last];
    if j :| 0 <= j < |scopes| && scopes[j].reference.key == k { assert all[j].reference.key == k; }
    assert all[|scopes|] == last;
  }

  /** A recorded workload leaves the recorded scopes it is no longer rendered into. */
  lemma {:induction false} ToLeaveExactly(st: WorkloadStatus, ws: seq<Rendered>, k: Key)
    requires DistinctWorkloads(ws)
    ensures HasRef(ToLeave(st, ws), k) <==> HasRef(st.scopes, k) && !RenderedPair(ws, st.reference.key, k)
  {
    if ws != [] {
      var n := |ws| - 1;
      var last, x := ws[n], st.reference.key;
      if last.manifest.key == x {
        DroppedExactly(st.scopes, last.scopes, k);
        assert RenderedPair(ws, x, k) <==> HasScope(last.scopes, k) by {
          assert forall i :: 0 <= i < n ==> ws[i].manifest.key != x;
        }
      } else {
        ToLeaveExactly(st, ws[..n], k);
        assert RenderedPair(ws, x, k) <==> RenderedPair(ws[..n], x, k) by {
          if i :| 0 <= i < n && ws[i].manifest.key == x && HasScope(ws[i].scopes, k) { assert ws[..n][i] == ws[i]; }
        }
      }
    }
  }

  ghost function Recorded(status: seq<WorkloadStatus>, ws: seq<Rendered>): (Key, Key) -> bool {
    (k, x) => StatusPair(status, x, k) && !RenderedPair(ws, x, k)
  }

  lemma StatusPairSplit(status: seq<WorkloadStatus>)
    requires status != []
    ensures forall x, k :: StatusPair(status, x, k) <==>
              (status[0].reference.key == x && HasRef(status[0].scopes, k)) || StatusPair(status[1..], x, k)
  {
    forall x, k ensures StatusPair(status, x, k) <==>
      (status[0].reference.key == x && HasRef(status[0].scopes, k)) || StatusPair(status[1..], x, k)
    {
      if i :| 0 < i < |status| && status[i].reference.key == x && HasRef(status[i].scopes, k) {
        assert status[1..][i - 1] == status[i];
      }
      if status[0].reference.key == x && HasRef(status[0].scopes, k) { assert StatusPair(status, x, k); }
    }
  }

  lemma {:induction false} DereferenceEffect(c: Config, status: seq<WorkloadStatus>, ws: seq<Rendered>, s: Server)
    requires DistinctWorkloads(ws)
    ensures var p := Dereference(c, status, ws, s);
            && OnlyLost(s, p.server, Recorded(status, ws)) && p.result != Conflict
            && (p.result == Done ==> forall x, k ::
                  StatusPair(status, x, k) && !RenderedPair(ws, x, k) && Held(s, k, x) <= 1 ==> Held(p.server, k, x) == 0)
    decreases |status|
  {
    if status != [] {
      var x := status[0].reference.key;
      var leaving := ToLeave(status[0], ws);
      var p := RemoveScopes(c, x, leaving, s);
      RemoveSeveral(c, x, leaving, s);
      StatusPairSplit(status);
      forall k { ToLeaveExactly(status[0], ws, k); }
      if p.result == Done {
        DereferenceEffect(c, status[1..], ws, p.server);
        var q := Dereference(c, status[1..], ws, p.server);
        LostTwice(s, p.server, q.server, AnyOf(x, leaving), Recorded(status[1..], ws), Recorded(status, ws));
        if q.result == Done {
          forall y, k | StatusPair(status, y, k) && !RenderedPair(ws, y, k) && Held(s, k, y) <= 1
            ensures Held(q.server, k, y) == 0
          {
            assert Held(q.server, k, y) <= Held(p.server, k, y) <= Held(s, k, y);
            if !StatusPair(status[1..], y, k) { assert HasRef(leaving, k); }
          }
        }
      } else {
        LostTwice(s, s, p.server, AnyOf(x, []), AnyOf(x, leaving), Recorded(status, ws));
      }
    }
  }

  // ---------- the theorems ----------

  /** The references of this application's workloads are within what was recorded and what is rendered, and
      nowhere twice. */
  ghost predicate Accounted(s: Server, ours: set<Key>, status: seq<WorkloadStatus>, ws: seq<Rendered>) {
    && (forall i :: 0 <= i < |ws| ==> ws[i].manifest.key in ours)
    && (forall i :: 0 <= i < |status| ==> status[i].reference.key in ours)
    && forall x, k :: x in ours ==>
         Held(s, k, x) <= 1 && (Held(s, k, x) == 1 ==> StatusPair(status, x, k) || RenderedPair(ws, x, k))
  }

  lemma AddingCounts(before: Server, s: Server, ws: seq<Rendered>, k: Key, x: Key)
    requires Adding(before, s, ws)
    ensures Held(s, k, x) == Held(before, k, x)
         || (Held(before, k, x) == 0 && Held(s, k, x) == 1 && RenderedPair(ws, x, k) && Asks(before, k))
  {
    assert AddedAtMostOne(before, s, ws, k);
    if k in before.scopes && s.scopes[k] != before.scopes[k] {
      var refs := Refs(before, k);
      var r := Refs(s, k)[|refs|];
      CountAppend(refs, [r], x);
      CountOne(r, x);
      CountZero(refs, x);
    }
  }

  lemma AddingSparesOthers(before: Server, s: Server, ws: seq<Rendered>, k: Key, r: TypedReference)
    requires Adding(before, s, ws) && !RenderedPair(ws, r.key, k)
    ensures Copies(s, k, r) == Copies(before, k, r)
  {
    assert AddedAtMostOne(before, s, ws, k);
  }

  /** A successful Apply leaves in every scope that asks for references exactly the rendered workloads of this
      application, once each, and every other application's references as often as before; scopes that do not
      ask are not touched. */
  lemma MembershipIsExact(c: Config, status: seq<WorkloadStatus>, ws: seq<Rendered>, s: Server, ours: set<Key>)
    requires DistinctWorkloads(ws) && Fresh(ws, s) && Accounted(s, ours, status, ws)
    requires Applied(c, status, ws, s).result == Done
    ensures var t := Applied(c, status, ws, s).server;
            && (forall x, k :: x in ours && Asks(s, k) ==> Held(t, k, x) == if RenderedPair(ws, x, k) then 1 else 0)
            && (forall k, r: TypedReference :: r.key !in ours ==> Copies(t, k, r) == Copies(s, k, r))
            && (forall k :: k in s.scopes && !Asks(s, k) ==> k in t.scopes && t.scopes[k] == s.scopes[k])
  {
    var p := ApplyWorkloads(c, ws, s);
    var q := Dereference(c, status, ws, p.server);
    AddWorkloads(c, ws, s, s, ws);
    DereferenceEffect(c, status, ws, p.server);
    forall x, k | x in ours && Asks(s, k)
      ensures Held(q.server, k, x) == if RenderedPair(ws, x, k) then 1 else 0
    {
      assert Held(s, k, x) <= 1;
      AddingCounts(s, p.server, ws, k, x);
      if RenderedPair(ws, x, k) {
        RenderedIsHeld(p.server, ws, x, k);
        assert !Recorded(status, ws)(k, x);
      }
    }
    forall k, r: TypedReference | r.key !in ours ensures Copies(q.server, k, r) == Copies(s, k, r) {
      AddingSparesOthers(s, p.server, ws, k, r);
      assert !Recorded(status, ws)(k, r.key);
    }
    forall k | k in s.scopes && !Asks(s, k) ensures k in q.server.scopes && q.server.scopes[k] == s.scopes[k] {
      assert AddedAtMostOne(s, p.server, ws, k);
    }
  }

  /** Where a successful Apply leaves one of our workloads: in the scope if it is rendered into it, out of it if it was
      only recorded, and as it was otherwise. */
  lemma {:induction false} HeldAfterSuccess(c: Config, status: seq<WorkloadStatus>, ws: seq<Rendered>, s: Server, x: Key, k: Key)
    requires DistinctWorkloads(ws) && Fresh(ws, s) && Held(s, k, x) <= 1 && Asks(s, k)
    requires Applied(c, status, ws, s).result == Done
    ensures Held(Applied(c, status, ws, s).server, k, x)
         == if RenderedPair(ws, x, k) then 1 else if StatusPair(status, x, k) then 0 else Held(s, k, x)
  {
    var p := ApplyWorkloads(c, ws, s);
    AddWorkloads(c, ws, s, s, ws);
    DereferenceEffect(c, status, ws, p.server);
    AddingCounts(s, p.server, ws, k, x);
    if RenderedPair(ws, x, k) {
      RenderedIsHeld(p.server, ws, x, k);
      assert !Recorded(status, ws)(k, x);
    } else if !StatusPair(status, x, k) {
      assert !Recorded(status, ws)(k, x);
    }
  }

  /** Exactly the rendered workloads are left, once each, of whatever is ours. */
  ghost predicate ExactlyRendered(t: Server, asks: Server, ours: set<Key>, ws: seq<Rendered>) {
    forall x, k :: x in ours && Asks(asks, k) ==> Held(t, k, x) == if RenderedPair(ws, x, k) then 1 else 0
  }

  /** Given success, and no reference twice at first, membership is exact exactly when no scope that asks for references
      held one of ours that is neither recorded nor rendered. */
  lemma {:induction false} MembershipIsExactlyWhen(c: Config, status: seq<WorkloadStatus>, ws: seq<Rendered>, s: Server, ours: set<Key>)
    requires DistinctWorkloads(ws) && Fresh(ws, s) && Applied(c, status, ws, s).result == Done
    requires forall x, k :: x in ours ==> Held(s, k, x) <= 1
    ensures ExactlyRendered(Applied(c, status, ws, s).server, s, ours, ws) <==>
              forall x, k :: x in ours && Asks(s, k) && Held(s, k, x) == 1 ==> StatusPair(status, x, k) || RenderedPair(ws, x, k)
  {
    var t := Applied(c, status, ws, s).server;
    forall x, k | x in ours && Asks(s, k)
      ensures Held(t, k, x) == if RenderedPair(ws, x, k) then 1 else if StatusPair(status, x, k) then 0 else Held(s, k, x)
    {
      HeldAfterSuccess(c, status, ws, s, x, k);
    }
  }

  lemma RenderedIsHeld(s: Server, ws: seq<Rendered>, x: Key, k: Key)
    requires EveryoneIn(s, ws) && RenderedPair(ws, x, k) && Asks(s, k)
    ensures Held(s, k, x) > 0
  {
    var i :| 0 <= i < |ws| && ws[i].manifest.key == x && HasScope(ws[i].scopes, k);
    assert AddedAll(s, x, ws[i].scopes);
  }

  /** However an Apply ends, it never takes a reference of another application, nor adds one; and its own
      references stay within what was recorded and what is rendered, nowhere twice. */
  lemma FailedApplyKeepsAccount(c: Config, status: seq<WorkloadStatus>, ws: seq<Rendered>, s: Server, ours: set<Key>)
    requires DistinctWorkloads(ws) && Fresh(ws, s) && Accounted(s, ours, status, ws)
    ensures var t := Applied(c, status, ws, s).server;
            && Accounted(t, ours, status, ws)
            && forall k, r: TypedReference :: r.key !in ours ==> Copies(t, k, r) == Copies(s, k, r)
  {
    if ws != [] {
      var p := ApplyWorkloads(c, ws, s);
      var t := Applied(c, status, ws, s).server;
      AddWorkloads(c, ws, s, s, ws);
      DereferenceEffect(c, status, ws, p.server);
      forall x, k | x in ours
        ensures Held(t, k, x) <= 1 && (Held(t, k, x) == 1 ==> StatusPair(status, x, k) || RenderedPair(ws, x, k))
      {
        AddingCounts(s, p.server, ws, k, x);
        assert Held(s, k, x) <= 1;
        assert Held(t, k, x) <= Held(p.server, k, x);
      }
      forall k, r: TypedReference | r.key !in ours ensures Copies(t, k, r) == Copies(s, k, r) {
        AddingSparesOthers(s, p.server, ws, k, r);
        assert !Recorded(status, ws)(k, r.key);
      }
    }
  }

  // ---------- finalizing ----------

  lemma {:induction false} FinalizeIsDereferenceOfNothing(c: Config, status: seq<WorkloadStatus>, s: Server)
    ensures DereferenceAll(c, status, s) == Dereference(c, status, [], s)
    decreases |status|
  {
    if status != [] {
      FinalizeIsDereferenceOfNothing(c, status[1..], RemoveScopes(c, status[0].reference.key, status[0].scopes, s).server);
    }
  }

  /** Finalizing that succeeds leaves no recorded workload in its recorded scope; whether or not it succeeds,
      every other reference stays. */
  lemma FinalizeIsExact(c: Config, status: seq<WorkloadStatus>, s: Server)
    ensures var p := DereferenceAll(c, status, s);
            && (p.result == Done ==> forall x, k :: StatusPair(status, x, k) && Held(s, k, x) <= 1 ==> Held(p.server, k, x) == 0)
            && (forall x, k :: !StatusPair(status, x, k) ==> Held(p.server, k, x) == Held(s, k, x))
            && (forall x, k :: Held(p.server, k, x) <= Held(s, k, x))
            && (forall k, r: TypedReference :: !StatusPair(status, r.key, k) ==> Copies(p.server, k, r) == Copies(s, k, r))
  {
    FinalizeIsDereferenceOfNothing(c, status, s);
    DereferenceEffect(c, status, [], s);
    assert forall x, k :: !RenderedPair([], x, k);
    assert forall x, k :: Recorded(status, [])(k, x) <==> StatusPair(status, x, k);
  }

  ghost predicate Quiet(net: Network) {
    forall n :: net(n) == Works
  }

  /** A scope a workload can leave: it is gone, or it asks for references and has the list. */
  predicate Leavable(s: Server, k: Key) {
    k in s.scopes ==> Asks(s, k) && s.scopes[k].refs.Some?
  }

  ghost predicate SameScopes(s: Server, t: Server) {
    forall k :: Leavable(s, k) <==> Leavable(t, k)
  }

  lemma RemoveOneQuietly(c: Config, x: Key, k: Key, s: Server)
    requires Quiet(c.net)
    ensures var p := RemoveScope(c, x, k, s); (p.result == Done <==> Leavable(s, k)) && SameScopes(s, p.server)
  {
    RemovalWrite(c, x, k, s);
  }

  lemma {:induction false} RemoveSeveralQuietly(c: Config, x: Key, scopes: seq<WorkloadScope>, s: Server)
    requires Quiet(c.net)
    ensures var p := RemoveScopes(c, x, scopes, s);
            (p.result == Done <==> forall k :: HasRef(scopes, k) ==> Leavable(s, k)) && SameScopes(s, p.server)
    decreases |scopes|
  {
    if scopes != [] {
      var k := scopes[0].reference.key;
      var p := RemoveScope(c, x, k, s);
      RemoveOneQuietly(c, x, k, s);
      HasRefSplit(scopes);
      if p.result == Done {
        RemoveSeveralQuietly(c, x, scopes[1..], p.server);
      }
    }
  }

  lemma {:induction false} DereferenceQuietly(c: Config, status: seq<WorkloadStatus>, ws: seq<Rendered>, s: Server)
    requires Quiet(c.net) && DistinctWorkloads(ws)
    ensures var p := Dereference(c, status, ws, s);
            && (p.result == Done <==>
                  forall x, k :: StatusPair(status, x, k) && !RenderedPair(ws, x, k) ==> Leavable(s, k))
            && SameScopes(s, p.server)
    decreases |status|
  {
    if status != [] {
      var x := status[0].reference.key;
      var leaving := ToLeave(status[0], ws);
      var p := RemoveScopes(c, x, leaving, s);
      RemoveSeveralQuietly(c, x, leaving, s);
      StatusPairSplit(status);
      forall k ensures HasRef(leaving, k) <==> HasRef(status[0].scopes, k) && !RenderedPair(ws, x, k) {
        ToLeaveExactly(status[0], ws, k);
      }
      if p.result == Done {
        DereferenceQuietly(c, status[1..], ws, p.server);
      } else {
        var k :| HasRef(leaving, k) && !Leavable(s, k);
        assert StatusPair(status, x, k) && !RenderedPair(ws, x, k);
      }
    }
  }

  /** On a network that works, deletion goes through exactly when every recorded scope is gone or asks for
      references and has the list: a scope that does not ask for them blocks it. */
  lemma FinalizeSucceedsExactlyWhen(c: Config, status: seq<WorkloadStatus>, s: Server)
    requires Quiet(c.net)
    ensures DereferenceAll(c, status, s).result == Done <==> forall x, k :: StatusPair(status, x, k) ==> Leavable(s, k)
  {
    FinalizeIsDereferenceOfNothing(c, status, s);
    DereferenceQuietly(c, status, [], s);
    assert forall x, k :: !RenderedPair([], x, k);
  }
}
