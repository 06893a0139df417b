/** The workload applicator: loops over the rendered workloads that write to the cluster through the client. */
module Applicator {
  import opened Kube
  import opened Cluster
  import opened AppStatus
  import opened Apply

  class Workloads {
    const client: Client
    const uid: string
    const once: bool

    constructor (client: Client, uid: string, once: bool)
      ensures this.client == client && Settings() == Config(uid, once, client.net)
    {
      this.client := client;
      this.uid := uid;
      this.once := once;
    }

    function Settings(): Config {
      Config(uid, once, client.net)
    }

    /** The patching applicator (workloads) and the updating one (traits). */
    method ApplyManifest(m: Manifest, patching: bool) returns (err: Reply)
      modifies client
      ensures Progress(client.server, err) == ApplyObject(Settings(), m, patching, old(client.server))
    {
      var got := client.Get(m.key);
      match got {
        case Unreadable => return Failed;
        case Missing =>
          err := client.Create(m.key, m.body);
        case Found(current) =>
          if !Controllable(current.body, uid) {
            return Failed;
          }
          if once && SameStamp(current.body, m.body) {
            return Done;
          }
          if patching {
            err := client.Patch(m.key, m.body);
          } else {
            err := client.Update(m.key, current.version, m.body);
          }
      }
      err := AsError(err);
    }

    method ApplyScopeTo(workload: Key, copy: ScopeCopy) returns (err: Reply)
      modifies client
      ensures Progress(client.server, err) == ApplyScope(Settings(), workload, copy, old(client.server))
    {
      var def := client.FetchScopeDefinition(copy.key);
      if !def.Found? {
        return Failed;
      }
      if |def.value| == 0 {
        return Done;
      }
      if copy.scope.refs.None? {
        return Failed;
      }
      var refs := copy.scope.refs.value;
      for i := 0 to |refs|
        invariant forall j :: 0 <= j < i ==> refs[j].key != workload
        invariant client.server == Tick(old(client.server))
      {
        if refs[i].key == workload {
          return Done;
        }
      }
      refs := refs + [TypedReference(workload, "")];
      err := client.WriteScope(copy.key, copy.scope.version, refs);
      err := AsError(err);
    }

    method ApplyScopeRemoval(workload: Key, scope: Key) returns (err: Reply)
      modifies client
      ensures Progress(client.server, err) == RemoveScope(Settings(), workload, scope, old(client.server))
    {
      var got := client.ReadScope(scope);
      if got.Missing? {
        return Done;
      }
      if got.Unreadable? {
        return Failed;
      }
      var def := client.FetchScopeDefinition(scope);
      if !def.Found? || |def.value| == 0 {
        return Failed;
      }
      if got.value.refs.None? {
        return Failed;
      }
      var refs := got.value.refs.value;
      var index := FindReference(refs, workload);
      if index >= 0 {
        refs := refs[index := refs[|refs| - 1]];
        refs := refs[..|refs| - 1];
        err := client.WriteScope(scope, got.value.version, refs);
        err := AsError(err);
      } else {
        err := Done;
      }
    }

    method ApplyTraitsOf(w: Rendered) returns (err: Reply)
      modifies client
      ensures Progress(client.server, err) == ApplyTraits(Settings(), w.traits, old(client.server))
    {
      for i := 0 to |w.traits|
        invariant ApplyTraits(Settings(), w.traits, old(client.server)) == ApplyTraits(Settings(), w.traits[i..], client.server)
      {
        assert w.traits[i..][0] == w.traits[i] && w.traits[i..][1..] == w.traits[i + 1..];
        if !w.traits[i].hasDep {
          err := ApplyManifest(w.traits[i].manifest, false);
          if err != Done {
            return;
          }
        }
      }
      err := Done;
    }

    method ApplyScopesOf(w: Rendered) returns (err: Reply)
      modifies client
      ensures Progress(client.server, err) == ApplyScopes(Settings(), w.manifest.key, w.scopes, old(client.server))
    {
      for i := 0 to |w.scopes|
        invariant ApplyScopes(Settings(), w.manifest.key, w.scopes, old(client.server))
               == ApplyScopes(Settings(), w.manifest.key, w.scopes[i..], client.server)
      {
        assert w.scopes[i..][0] == w.scopes[i] && w.scopes[i..][1..] == w.scopes[i + 1..];
        err := ApplyScopeTo(w.manifest.key, w.scopes[i]);
        if err != Done {
          return;
        }
      }
      err := Done;
    }

    /** One turn of the loop in Apply. */
    method ApplyOne(w: Rendered) returns (err: Reply)
      modifies client
      ensures Progress(client.server, err) == ApplyWorkload(Settings(), w, old(client.server))
    {
      if !w.hasDep {
        err := ApplyManifest(w.manifest, true);
        if err != Done {
          return;
        }
      }
      err := ApplyTraitsOf(w);
      if err != Done {
        return;
      }
      err := ApplyScopesOf(w);
    }

    method Apply(status: seq<WorkloadStatus>, ws: seq<Rendered>) returns (err: Reply)
      modifies client
      ensures Progress(client.server, err) == Applied(Settings(), status, ws, old(client.server))
    {
      if |ws| == 0 {
        return Failed;
      }
      for i := 0 to |ws|
        invariant ApplyWorkloads(Settings(), ws, old(client.server)) == ApplyWorkloads(Settings(), ws[i..], client.server)
      {
        assert ws[i..][0] == ws[i] && ws[i..][1..] == ws[i + 1..];
        err := ApplyOne(ws[i]);
        if err != Done {
          return;
        }
      }
      err := DereferenceScope(status, ws);
    }

    method ApplyScopeRemovals(workload: Key, scopes: seq<WorkloadScope>) returns (err: Reply)
      modifies client
      ensures Progress(client.server, err) == RemoveScopes(Settings(), workload, scopes, old(client.server))
    {
      for i := 0 to |scopes|
        invariant RemoveScopes(Settings(), workload, scopes, old(client.server))
               == RemoveScopes(Settings(), workload, scopes[i..], client.server)
      {
        assert scopes[i..][0] == scopes[i] && scopes[i..][1..] == scopes[i + 1..];
        err := ApplyScopeRemoval(workload, scopes[i].reference.key);
        if err != Done {
          return;
        }
      }
      err := Done;
    }

    method DereferenceScope(status: seq<WorkloadStatus>, ws: seq<Rendered>) returns (err: Reply)
      modifies client
      ensures Progress(client.server, err) == Dereference(Settings(), status, ws, old(client.server))
    {
      for i := 0 to |status|
        invariant Dereference(Settings(), status, ws, old(client.server)) == Dereference(Settings(), status[i..], ws, client.server)
      {
        assert status[i..][0] == status[i] && status[i..][1..] == status[i + 1..];
        var st := status[i];
        var toBeDereferenced := st.scopes;
        ghost var before := client.server;
        for j := 0 to |ws|
          invariant toBeDereferenced == ToLeave(st, ws[..j]) && client.server == before
        {
          assert ws[..j + 1][..j] == ws[..j];
          if st.reference.key == ws[j].manifest.key {
            toBeDereferenced := FindDereferencedScopes(st.scopes, ws[j].scopes);
          }
        }
        assert ws[..|ws|] == ws && toBeDereferenced == ToLeave(st, ws);
        err := ApplyScopeRemovals(st.reference.key, toBeDereferenced);
        if err != Done {
          return;
        }
      }
      err := Done;
    }

    method DereferenceAllScopes(status: seq<WorkloadStatus>) returns (err: Reply)
      modifies client
      ensures Progress(client.server, err) == DereferenceAll(Settings(), status, old(client.server))
    {
      for i := 0 to |status|
        invariant DereferenceAll(Settings(), status, old(client.server)) == DereferenceAll(Settings(), status[i..], client.server)
      {
        assert status[i..][0] == status[i] && status[i..][1..] == status[i + 1..];
        err := ApplyScopeRemovals(status[i].reference.key, status[i].scopes);
        if err != Done {
          return;
        }
      }
      err := Done;
    }

    /** Returns whether the application still carries the finalizer. */
    method Finalize(finalizer: bool, status: seq<WorkloadStatus>) returns (err: Reply, kept: bool)
      modifies client
      ensures if !finalizer then err == Done && !kept && client.server == old(client.server)
              else Progress(client.server, err) == DereferenceAll(Settings(), status, old(client.server)) && kept == (err != Done)
    {
      kept := finalizer;
      if finalizer {
        err := DereferenceAllScopes(status);
        if err != Done {
          return;
        }
        kept := false;
      }
      err := Done;
    }
  }

  method FindReference(refs: seq<TypedReference>, workload: Key) returns (index: int)
    ensures index == IndexOf(refs, workload)
    ensures -1 <= index < |refs| && (index < 0 <==> forall j :: 0 <= j < |refs| ==> refs[j].key != workload)
  {
    for i := 0 to |refs|
      invariant forall j :: 0 <= j < i ==> refs[j].key != workload
    {
      if refs[i].key == workload {
        return i;
      }
    }
    index := -1;
  }

  method FindDereferencedScopes(recorded: seq<WorkloadScope>, scopes: seq<ScopeCopy>) returns (dropped: seq<WorkloadScope>)
    ensures dropped == Dropped(recorded, scopes)
    ensures forall x :: x in dropped <==> x in recorded && !HasScope(scopes, x.reference.key)
  {
    dropped := [];
    for i := 0 to |recorded|
      invariant dropped == Dropped(recorded[..i], scopes)
      invariant forall x :: x in dropped <==> x in recorded[..i] && !HasScope(scopes, x.reference.key)
    {
      assert recorded[..i + 1] == recorded[..i] + [recorded[i]];
      var found := false;
      for j := 0 to |scopes|
        invariant !found && forall l :: 0 <= l < j ==> scopes[l].key != recorded[i].reference.key
      {
        if scopes[j].key == recorded[i].reference.key {
          found := true;
          break;
        }
      }
      assert found == HasScope(scopes, recorded[i].reference.key);
      if !found {
        dropped := dropped + [recorded[i]];
      }
    }
    assert recorded[..|recorded|] == recorded;
  }
}
