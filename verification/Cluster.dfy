/** The versioned store the controllers talk to: workloads and traits, scopes, and scope definitions.
    Any request may be turned down, or take effect although an error comes back. */
module Cluster {
  import opened Wrappers
  import opened Kube
  import opened Labels
  import FieldPaths

  type Fields = map<string, FieldPaths.Value>

  /** What a workload or a trait says. Owner is the UID of the controlling owner; content is everything beside the
      type and the metadata. */
  datatype Body = Body(owner: Option<string>, labels: Labelling, annotations: Labelling, content: Fields)

  datatype Obj = Obj(version: nat, body: Body)

  /** A scope with the list its workloadRefs path leads to; None when that path leads nowhere. */
  datatype Scope = Scope(version: nat, refs: Option<seq<TypedReference>>)

  /** Which scopes are asked for, by apiVersion and kind; the value is the workloadRefs path of its definition. */
  type Definitions = map<(string, string), string>

  /** Clock counts the requests made so far. */
  datatype Server = Server(objects: map<Key, Obj>, scopes: map<Key, Scope>, definitions: Definitions, clock: nat)

  /** How the n-th request fares. */
  type Network = nat -> Call

  datatype Reply = Done | NotFound | Conflict | Failed

  datatype Outcome = Outcome(server: Server, reply: Reply)

  datatype Reading<+T> = Found(value: T) | Missing | Unreadable

  function Tick(s: Server): Server {
    s.(clock := s.clock + 1)
  }

  /** A write that, if it takes effect, leaves the server as in after and answers with reply. */
  function Settle(net: Network, s: Server, after: Server, reply: Reply): Outcome {
    match net(s.clock)
    case Works => Outcome(Tick(after), reply)
    case Rejected => Outcome(Tick(s), Failed)
    case Lost => Outcome(Tick(after), Failed)
  }

  function GetObject(net: Network, s: Server, k: Key): Reading<Obj> {
    if net(s.clock) != Works then Unreadable else if k in s.objects then Found(s.objects[k]) else Missing
  }

  function GetScope(net: Network, s: Server, k: Key): Reading<Scope> {
    if net(s.clock) != Works then Unreadable else if k in s.scopes then Found(s.scopes[k]) else Missing
  }

  function GetDefinition(net: Network, s: Server, k: Key): Reading<string> {
    if net(s.clock) != Works then Unreadable
    else if (k.apiVersion, k.kind) in s.definitions then Found(s.definitions[(k.apiVersion, k.kind)]) else Missing
  }

  function CreateObject(net: Network, s: Server, k: Key, body: Body): Outcome {
    if k in s.objects then Settle(net, s, s, Failed)
    else Settle(net, s, s.(objects := s.objects[k := Obj(0, body)]), Done)
  }

  /** A JSON merge patch (section 2 of RFC 7396): what the patch does not mention stays, objects are merged field by
      field, nulls delete, and anything else replaces. */
  function MergePatch(target: FieldPaths.Value, patch: FieldPaths.Value): FieldPaths.Value
    decreases patch
  {
    if !patch.Object? then patch
    else
      var fields := if target.Object? then target.fields else map[];
      FieldPaths.Object(map name | name in fields.Keys + patch.fields.Keys && !(name in patch.fields && patch.fields[name].Null?) ::
        if name in patch.fields then MergePatch(if name in fields then fields[name] else FieldPaths.Null, patch.fields[name])
        else fields[name])
  }

  function Merged(old_: Body, patch: Body): Body {
    Body(patch.owner, old_.labels + patch.labels, old_.annotations + patch.annotations,
         MergePatch(FieldPaths.Object(old_.content), FieldPaths.Object(patch.content)).fields)
  }

  function PatchObject(net: Network, s: Server, k: Key, patch: Body): Outcome {
    if k !in s.objects then Settle(net, s, s, NotFound)
    else Settle(net, s, s.(objects := s.objects[k := Obj(s.objects[k].version + 1, Merged(s.objects[k].body, patch))]), Done)
  }

  function UpdateObject(net: Network, s: Server, k: Key, version: nat, body: Body): Outcome {
    if k !in s.objects then Settle(net, s, s, NotFound)
    else if s.objects[k].version != version then Settle(net, s, s, Conflict)
    else Settle(net, s, s.(objects := s.objects[k := Obj(version + 1, body)]), Done)
  }

  function DeleteObject(net: Network, s: Server, k: Key): Outcome {
    if k !in s.objects then Settle(net, s, s, NotFound)
    else Settle(net, s, s.(objects := s.objects - {k}), Done)
  }

  function UpdateScope(net: Network, s: Server, k: Key, version: nat, refs: seq<TypedReference>): Outcome {
    if k !in s.scopes then Settle(net, s, s, NotFound)
    else if s.scopes[k].version != version then Settle(net, s, s, Conflict)
    else Settle(net, s, s.(scopes := s.scopes[k := Scope(version + 1, Some(refs))]), Done)
  }

  /** The client the controllers use: each request changes the server as the function of its name says. */
  class Client {
    const net: Network
    var server: Server

    constructor (net: Network, server: Server)
      ensures this.net == net && this.server == server
    {
      this.net := net;
      this.server := server;
    }

    method Get(k: Key) returns (r: Reading<Obj>)
      modifies this
      ensures r == GetObject(net, old(server), k) && server == Tick(old(server))
    {
      r := GetObject(net, server, k);
      server := Tick(server);
    }

    method ReadScope(k: Key) returns (r: Reading<Scope>)
      modifies this
      ensures r == GetScope(net, old(server), k) && server == Tick(old(server))
    {
      r := GetScope(net, server, k);
      server := Tick(server);
    }

    method FetchScopeDefinition(k: Key) returns (r: Reading<string>)
      modifies this
      ensures r == GetDefinition(net, old(server), k) && server == Tick(old(server))
    {
      r := GetDefinition(net, server, k);
      server := Tick(server);
    }

    method Create(k: Key, body: Body) returns (reply: Reply)
      modifies this
      ensures Outcome(server, reply) == CreateObject(net, old(server), k, body)
    {
      var o := CreateObject(net, server, k, body);
      server := o.server;
      reply := o.reply;
    }

    method Patch(k: Key, body: Body) returns (reply: Reply)
      modifies this
      ensures Outcome(server, reply) == PatchObject(net, old(server), k, body)
    {
      var o := PatchObject(net, server, k, body);
      server := o.server;
      reply := o.reply;
    }

    method Update(k: Key, version: nat, body: Body) returns (reply: Reply)
      modifies this
      ensures Outcome(server, reply) == UpdateObject(net, old(server), k, version, body)
    {
      var o := UpdateObject(net, server, k, version, body);
      server := o.server;
      reply := o.reply;
    }

    method Delete(k: Key) returns (reply: Reply)
      modifies this
      ensures Outcome(server, reply) == DeleteObject(net, old(server), k)
    {
      var o := DeleteObject(net, server, k);
      server := o.server;
      reply := o.reply;
    }

    method WriteScope(k: Key, version: nat, refs: seq<TypedReference>) returns (reply: Reply)
      modifies this
      ensures Outcome(server, reply) == UpdateScope(net, old(server), k, version, refs)
    {
      var o := UpdateScope(net, server, k, version, refs);
      server := o.server;
      reply := o.reply;
    }
  }
}
