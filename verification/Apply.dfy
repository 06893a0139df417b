/** Applying what was rendered, step by step and in order: workloads, traits, and the workload references of
    scopes, which hold copies read at render time. */
module Apply {
  import opened Kube
  import opened Labels
  import opened Cluster
  import opened AppStatus

  datatype Manifest = Manifest(key: Key, body: Body)

  datatype RenderedTrait = RenderedTrait(manifest: Manifest, hasDep: bool, dummy: bool)

  /** A scope as renderScope read it. */
  datatype ScopeCopy = ScopeCopy(key: Key, scope: Scope)

  datatype Rendered = Rendered(
    componentName: string,
    revisionName: string,
    manifest: Manifest,
    hasDep: bool,
    traits: seq<RenderedTrait>,
    revisionEnabled: bool,
    scopes: seq<ScopeCopy>)

  /** The application's UID, whether resources are applied only once, and the network. */
  datatype Config = Config(uid: string, once: bool, net: Network)

  /** Where a sequence of requests leaves the server, and the error it stops at; Done when there is none. */
  datatype Progress = Progress(server: Server, result: Reply)

  // ---------- one object ----------

  /** MustBeControllableBy: nobody controls it, or this application does. */
  predicate Controllable(body: Body, uid: string) {
    body.owner.None? || body.owner.value == uid
  }

  /** GenerationUnchanged: a marked object whose stamp is the one it would get. */
  predicate SameStamp(current: Body, desired: Body) {
    MarkedForOnce(desired.labels)
    && StampOf(current.labels, current.annotations) == StampOf(desired.labels, desired.annotations)
  }

  /** A reply as the applicator returns it: an object that has vanished is an ordinary failure. */
  function AsError(reply: Reply): Reply {
    if reply == NotFound then Failed else reply
  }

  /** Workloads are patched, traits replaced. A skipped object is no error. */
  function ApplyObject(c: Config, m: Manifest, patching: bool, s: Server): Progress {
    var got := GetObject(c.net, s, m.key);
    if got.Unreadable? then Progress(Tick(s), Failed)
    else if got.Missing? then
      var o := CreateObject(c.net, Tick(s), m.key, m.body);
      Progress(o.server, AsError(o.reply))
    else if !Controllable(got.value.body, c.uid) then Progress(Tick(s), Failed)
    else if c.once && SameStamp(got.value.body, m.body) then Progress(Tick(s), Done)
    else
      var o := if patching then PatchObject(c.net, Tick(s), m.key, m.body)
               else UpdateObject(c.net, Tick(s), m.key, got.value.version, m.body);
      Progress(o.server, AsError(o.reply))
  }

  function ApplyTraits(c: Config, ts: seq<RenderedTrait>, s: Server): Progress
    decreases |ts|
  {
    if ts == [] then Progress(s, Done)
    else
      var p := if ts[0].hasDep then Progress(s, Done) else ApplyObject(c, ts[0].manifest, false, s);
      if p.result != Done then p else ApplyTraits(c, ts[1..], p.server)
  }

  // ---------- scopes ----------

  /** The first reference to k; -1 when there is none. */
  function IndexOf(refs: seq<TypedReference>, k: Key): (i: int)
    ensures -1 <= i < |refs|
    ensures i >= 0 ==> refs[i].key == k
    ensures forall j :: 0 <= j < (if i < 0 then |refs| else i) ==> refs[j].key != k
  {
    if refs == [] then -1
    else if refs[0].key == k then 0
    else (var i := IndexOf(refs[1..], k); if i < 0 then -1 else i + 1)
  }

  /** applyScope: a reference the copy already holds is not added again; otherwise it is appended to the copy,
      and the copy replaces the server's scope if that is still the one it was read from. */
  function ApplyScope(c: Config, workload: Key, copy: ScopeCopy, s: Server): Progress {
    var def := GetDefinition(c.net, s, copy.key);
    if !def.Found? then Progress(Tick(s), Failed)
    else if def.value == "" then Progress(Tick(s), Done)
    else if copy.scope.refs.None? then Progress(Tick(s), Failed)
    else if IndexOf(copy.scope.refs.value, workload) >= 0 then Progress(Tick(s), Done)
    else
      var o := UpdateScope(c.net, Tick(s), copy.key, copy.scope.version, copy.scope.refs.value + [TypedReference(workload, "")]);
      Progress(o.server, AsError(o.reply))
  }

  function ApplyScopes(c: Config, workload: Key, copies: seq<ScopeCopy>, s: Server): Progress
    decreases |copies|
  {
    if copies == [] then Progress(s, Done)
    else
      var p := ApplyScope(c, workload, copies[0], s);
      if p.result != Done then p else ApplyScopes(c, workload, copies[1..], p.server)
  }

  /** Swap with the last one and shorten. */
  function Without(refs: seq<TypedReference>, i: nat): seq<TypedReference>
    requires i < |refs|
  {
    refs[i := refs[|refs| - 1]][..|refs| - 1]
  }

  /** applyScopeRemoval: a scope that is gone is done with. */
  function RemoveScope(c: Config, workload: Key, scope: Key, s: Server): Progress {
    var got := GetScope(c.net, s, scope);
    if got.Missing? then Progress(Tick(s), Done)
    else if got.Unreadable? then Progress(Tick(s), Failed)
    else
      var def := GetDefinition(c.net, Tick(s), scope);
      var t := Tick(Tick(s));
      if !def.Found? || def.value == "" || got.value.refs.None? then Progress(t, Failed)
      else
        var refs := got.value.refs.value;
        var i := IndexOf(refs, workload);
        if i < 0 then Progress(t, Done)
        else
          var o := UpdateScope(c.net, t, scope, got.value.version, Without(refs, i));
          Progress(o.server, AsError(o.reply))
  }

  function RemoveScopes(c: Config, workload: Key, scopes: seq<WorkloadScope>, s: Server): Progress
    decreases |scopes|
  {
    if scopes == [] then Progress(s, Done)
    else
      var p := RemoveScope(c, workload, scopes[0].reference.key, s);
      if p.result != Done then p else RemoveScopes(c, workload, scopes[1..], p.server)
  }

  /** findDereferencedScopes */
  function Dropped(recorded: seq<WorkloadScope>, rendered: seq<ScopeCopy>): seq<WorkloadScope> {
    if recorded == [] then []
    else (
      var rest := Dropped(recorded[..|recorded| - 1], rendered);
      var last := recorded[|recorded| - 1];
      if HasScope(rendered, last.reference.key) then rest else rest + [last]
    )
  }

  predicate HasScope(rendered: seq<ScopeCopy>, k: Key) {
    exists i :: 0 <= i < |rendered| && rendered[i].key == k
  }

  /** The scopes a recorded workload has to leave: all of them if it is no longer rendered. */
  function ToLeave(st: WorkloadStatus, ws: seq<Rendered>): seq<WorkloadScope> {
    if ws == [] then st.scopes
    else if ws[|ws| - 1].manifest.key == st.reference.key then Dropped(st.scopes, ws[|ws| - 1].scopes)
    else ToLeave(st, ws[..|ws| - 1])
  }

  function Dereference(c: Config, status: seq<WorkloadStatus>, ws: seq<Rendered>, s: Server): Progress
    decreases |status|
  {
    if status == [] then Progress(s, Done)
    else
      var p := RemoveScopes(c, status[0].reference.key, ToLeave(status[0], ws), s);
      if p.result != Done then p else Dereference(c, status[1..], ws, p.server)
  }

  function DereferenceAll(c: Config, status: seq<WorkloadStatus>, s: Server): Progress
    decreases |status|
  {
    if status == [] then Progress(s, Done)
    else
      var p := RemoveScopes(c, status[0].reference.key, status[0].scopes, s);
      if p.result != Done then p else DereferenceAll(c, status[1..], p.server)
  }

  // ---------- everything ----------

  function ApplyWorkload(c: Config, w: Rendered, s: Server): Progress {
    var p := if w.hasDep then Progress(s, Done) else ApplyObject(c, w.manifest, true, s);
    if p.result != Done then p
    else
      var q := ApplyTraits(c, w.traits, p.server);
      if q.result != Done then q else ApplyScopes(c, w.manifest.key, w.scopes, q.server)
  }

  function ApplyWorkloads(c: Config, ws: seq<Rendered>, s: Server): Progress
    decreases |ws|
  {
    if ws == [] then Progress(s, Done)
    else
      var p := ApplyWorkload(c, ws[0], s);
      if p.result != Done then p else ApplyWorkloads(c, ws[1..], p.server)
  }

  /** An application without workloads is an error. */
  function Applied(c: Config, status: seq<WorkloadStatus>, ws: seq<Rendered>, s: Server): Progress {
    if ws == [] then Progress(s, Failed)
    else
      var p := ApplyWorkloads(c, ws, s);
      if p.result != Done then p else Dereference(c, status, ws, p.server)
  }
}
