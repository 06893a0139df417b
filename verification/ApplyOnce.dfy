/** What an Apply makes of the objects, and what apply-once-only leaves alone. */
module ApplyOnce {
  import opened Wrappers
  import opened Kube
  import opened Labels
  import opened Cluster
  import opened AppStatus
  import opened Apply
  import opened ScopeMembership

  type Objects = map<Key, Obj>

  /** An object given to the applicator; workloads are patched, traits replaced. */
  datatype Handed = Handed(manifest: Manifest, patching: bool)

  function HandedTraits(ts: seq<RenderedTrait>): seq<Handed> {
    if ts == [] then []
    else (if ts[0].hasDep then [] else [Handed(ts[0].manifest, false)]) + HandedTraits(ts[1..])
  }

  /** Everything that is not held back by a dependency, in order. */
  function HandedOver(ws: seq<Rendered>): seq<Handed> {
    if ws == [] then []
    else
      (if ws[0].hasDep then [] else [Handed(ws[0].manifest, true)]) + HandedTraits(ws[0].traits) + HandedOver(ws[1..])
  }

  /** The object that results, given the one that was there. */
  function Settled(once: bool, h: Handed, was: Option<Obj>): Obj {
    if was.None? then Obj(0, h.manifest.body)
    else if once && SameStamp(was.value.body, h.manifest.body) then was.value
    else Obj(was.value.version + 1, if h.patching then Merged(was.value.body, h.manifest.body) else h.manifest.body)
  }

  function Put(once: bool, h: Handed, objects: Objects): Objects {
    objects[h.manifest.key := Settled(once, h, Find(objects, h.manifest.key))]
  }

  function PutAll(once: bool, hs: seq<Handed>, objects: Objects): Objects
    decreases |hs|
  {
    if hs == [] then objects else PutAll(once, hs[1..], Put(once, hs[0], objects))
  }

  // ---------- a successful Apply gives every object its outcome ----------

  lemma ObjectIsPut(c: Config, h: Handed, s: Server)
    requires ApplyObject(c, h.manifest, h.patching, s).result == Done
    ensures ApplyObject(c, h.manifest, h.patching, s).server.objects == Put(c.once, h, s.objects)
  {
    var k := h.manifest.key;
    if k in s.objects { assert s.objects[k := s.objects[k]] == s.objects; }
  }

  lemma {:induction false} PutInTurn(once: bool, a: seq<Handed>, b: seq<Handed>, objects: Objects)
    ensures PutAll(once, a + b, objects) == PutAll(once, b, PutAll(once, a, objects))
    decreases |a|
  {
    if a == [] {
      assert a + b == b;
    } else {
      PutInTurn(once, a[1..], b, Put(once, a[0], objects));
      assert (a + b)[1..] == a[1..] + b;
    }
  }

  lemma {:induction false} TraitsArePut(c: Config, ts: seq<RenderedTrait>, s: Server)
    requires ApplyTraits(c, ts, s).result == Done
    ensures ApplyTraits(c, ts, s).server.objects == PutAll(c.once, HandedTraits(ts), s.objects)
    decreases |ts|
  {
    if ts != [] {
      var h := Handed(ts[0].manifest, false);
      if ts[0].hasDep {
        assert HandedTraits(ts) == HandedTraits(ts[1..]);
        TraitsArePut(c, ts[1..], s);
      } else {
        ObjectIsPut(c, h, s);
        TraitsArePut(c, ts[1..], ApplyObject(c, ts[0].manifest, false, s).server);
        PutInTurn(c.once, [h], HandedTraits(ts[1..]), s.objects);
      }
    }
  }

  lemma {:induction false} ScopesLeaveObjects(c: Config, x: Key, copies: seq<ScopeCopy>, s: Server)
    ensures ApplyScopes(c, x, copies, s).server.objects == s.objects
    decreases |copies|
  {
    if copies != [] {
      ScopesLeaveObjects(c, x, copies[1..], ApplyScope(c, x, copies[0], s).server);
    }
  }

  lemma {:induction false} DereferenceLeavesObjects(c: Config, status: seq<WorkloadStatus>, ws: seq<Rendered>, s: Server)
    ensures Dereference(c, status, ws, s).server.objects == s.objects
    decreases |status|
  {
    if status != [] {
      var x, leaving := status[0].reference.key, ToLeave(status[0], ws);
      RemoveSeveral(c, x, leaving, s);
      DereferenceLeavesObjects(c, status[1..], ws, RemoveScopes(c, x, leaving, s).server);
    }
  }

  lemma {:induction false} WorkloadsArePut(c: Config, ws: seq<Rendered>, s: Server)
    requires ApplyWorkloads(c, ws, s).result == Done
    ensures ApplyWorkloads(c, ws, s).server.objects == PutAll(c.once, HandedOver(ws), s.objects)
    decreases |ws|
  {
    if ws != [] {
      var w, rest := ws[0], HandedOver(ws[1..]);
      var own := if w.hasDep then [] else [Handed(w.manifest, true)];
      var p := if w.hasDep then Progress(s, Done) else ApplyObject(c, w.manifest, true, s);
      if !w.hasDep { ObjectIsPut(c, Handed(w.manifest, true), s); }
      assert p.server.objects == PutAll(c.once, own, s.objects);
      TraitsArePut(c, w.traits, p.server);
      var q := ApplyTraits(c, w.traits, p.server);
      ScopesLeaveObjects(c, w.manifest.key, w.scopes, q.server);
      WorkloadsArePut(c, ws[1..], ApplyWorkload(c, w, s).server);
      PutInTurn(c.once, own, HandedTraits(w.traits), s.objects);
      PutInTurn(c.once, own + HandedTraits(w.traits), rest, s.objects);
    }
  }

  predicate DistinctKeys(hs: seq<Handed>) {
    forall i, j :: 0 <= i < j < |hs| ==> hs[i].manifest.key != hs[j].manifest.key
  }

  lemma {:induction false} PutElsewhere(once: bool, hs: seq<Handed>, objects: Objects, k: Key)
    requires forall i :: 0 <= i < |hs| ==> hs[i].manifest.key != k
    ensures Find(PutAll(once, hs, objects), k) == Find(objects, k)
    decreases |hs|
  {
    if hs != [] { PutElsewhere(once, hs[1..], Put(once, hs[0], objects), k); }
  }

  lemma {:induction false} PutOnce(once: bool, hs: seq<Handed>, objects: Objects, i: nat)
    requires i < |hs| && DistinctKeys(hs)
    ensures Find(PutAll(once, hs, objects), hs[i].manifest.key) == Some(Settled(once, hs[i], Find(objects, hs[i].manifest.key)))
    decreases |hs|
  {
    if i == 0 {
      PutElsewhere(once, hs[1..], Put(once, hs[0], objects), hs[0].manifest.key);
    } else {
      PutOnce(once, hs[1..], Put(once, hs[0], objects), i - 1);
    }
  }

  /** A successful Apply settles every object that is not held back: absent ones are created as rendered,
      skipped ones stay as they are, and the others are patched or replaced; in particular an object that is
      skipped does not keep later ones from being applied. Nothing else is written. */
  lemma EveryObjectGetsItsOutcome(c: Config, status: seq<WorkloadStatus>, ws: seq<Rendered>, s: Server)
    requires Applied(c, status, ws, s).result == Done && DistinctKeys(HandedOver(ws))
    ensures var t, hs := Applied(c, status, ws, s).server, HandedOver(ws);
            && (forall i :: 0 <= i < |hs| ==>
                  Find(t.objects, hs[i].manifest.key) == Some(Settled(c.once, hs[i], Find(s.objects, hs[i].manifest.key))))
            && (forall k :: (forall i :: 0 <= i < |hs| ==> hs[i].manifest.key != k) ==> Find(t.objects, k) == Find(s.objects, k))
  {
    WorkloadsArePut(c, ws, s);
    DereferenceLeavesObjects(c, status, ws, ApplyWorkloads(c, ws, s).server);
    var hs := HandedOver(ws);
    forall i | 0 <= i < |hs|
      ensures Find(PutAll(c.once, hs, s.objects), hs[i].manifest.key) == Some(Settled(c.once, hs[i], Find(s.objects, hs[i].manifest.key)))
    {
      PutOnce(c.once, hs, s.objects, i);
    }
    forall k | forall i :: 0 <= i < |hs| ==> hs[i].manifest.key != k
      ensures Find(PutAll(c.once, hs, s.objects), k) == Find(s.objects, k)
    {
      PutElsewhere(c.once, hs, s.objects, k);
    }
  }

  // ---------- applying only once ----------

  /** Object k is there and carries this stamp. */
  predicate Carries(s: Server, k: Key, stamp: StampValues) {
    k in s.objects && StampOf(s.objects[k].body.labels, s.objects[k].body.annotations) == stamp
  }

  /** A manifest that is not for k, or is marked and carries the stamp. */
  predicate Agrees(m: Manifest, k: Key, stamp: StampValues) {
    m.key == k ==> MarkedForOnce(m.body.labels) && StampOf(m.body.labels, m.body.annotations) == stamp
  }

  ghost predicate AllAgree(ws: seq<Rendered>, k: Key, stamp: StampValues) {
    forall i :: 0 <= i < |ws| ==>
      Agrees(ws[i].manifest, k, stamp) && forall j :: 0 <= j < |ws[i].traits| ==> Agrees(ws[i].traits[j].manifest, k, stamp)
  }

  predicate Untouched(s: Server, t: Server, k: Key) {
    Find(s.objects, k) == Find(t.objects, k)
  }

  lemma ObjectStays(c: Config, m: Manifest, patching: bool, s: Server, k: Key, stamp: StampValues)
    requires c.once && Carries(s, k, stamp) && Agrees(m, k, stamp)
    ensures Untouched(s, ApplyObject(c, m, patching, s).server, k)
  {
  }

  lemma {:induction false} ObjectStaysInTraits(c: Config, ts: seq<RenderedTrait>, s: Server, k: Key, stamp: StampValues)
    requires c.once && Carries(s, k, stamp) && forall j :: 0 <= j < |ts| ==> Agrees(ts[j].manifest, k, stamp)
    ensures Untouched(s, ApplyTraits(c, ts, s).server, k)
    decreases |ts|
  {
    if ts != [] {
      var p := if ts[0].hasDep then Progress(s, Done) else ApplyObject(c, ts[0].manifest, false, s);
      ObjectStays(c, ts[0].manifest, false, s, k, stamp);
      if p.result == Done { ObjectStaysInTraits(c, ts[1..], p.server, k, stamp); }
    }
  }

  lemma ObjectStaysInWorkload(c: Config, w: Rendered, s: Server, k: Key, stamp: StampValues)
    requires c.once && Carries(s, k, stamp) && AllAgree([w], k, stamp)
    ensures Untouched(s, ApplyWorkload(c, w, s).server, k)
  {
    assert [w][0] == w;
    var p := if w.hasDep then Progress(s, Done) else ApplyObject(c, w.manifest, true, s);
    ObjectStays(c, w.manifest, true, s, k, stamp);
    if p.result == Done {
      ObjectStaysInTraits(c, w.traits, p.server, k, stamp);
      ScopesLeaveObjects(c, w.manifest.key, w.scopes, ApplyTraits(c, w.traits, p.server).server);
    }
  }

  lemma {:induction false} ObjectStaysInWorkloads(c: Config, ws: seq<Rendered>, s: Server, k: Key, stamp: StampValues)
    requires c.once && Carries(s, k, stamp) && AllAgree(ws, k, stamp)
    ensures Untouched(s, ApplyWorkloads(c, ws, s).server, k)
    decreases |ws|
  {
    if ws != [] {
      var p := ApplyWorkload(c, ws[0], s);
      ObjectStaysInWorkload(c, ws[0], s, k, stamp);
      if p.result == Done { ObjectStaysInWorkloads(c, ws[1..], p.server, k, stamp); }
    }
  }

  /** However the requests fare, an Apply leaves an object alone whose stamp is the one it would get. */
  lemma ApplyLeavesObject(c: Config, status: seq<WorkloadStatus>, ws: seq<Rendered>, s: Server, k: Key, stamp: StampValues)
    requires c.once && Carries(s, k, stamp) && AllAgree(ws, k, stamp)
    ensures Untouched(s, Applied(c, status, ws, s).server, k)
  {
    ObjectStaysInWorkloads(c, ws, s, k, stamp);
    DereferenceLeavesObjects(c, status, ws, ApplyWorkloads(c, ws, s).server);
  }
}
