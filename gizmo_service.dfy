/**
 * The inspector's gizmo service: utility layers shared per (scene, layer
 * name) and camera/light gizmos shared per node, each kept alive by a
 * reference count that every handed-out reference decrements once; the
 * gizmo and coordinates modes; and the resolution of the selected entity
 * to the gizmo that can act on it.
 */
module GizmoService {
  import opened Wrappers

  type SceneId = nat
  type NodeId = nat

  /** A handed-out reference: the key of what it refers to, that object's identity, and whether it was disposed. */
  datatype Ref<K> = Ref(key: K, id: nat, disposed: bool)

  /** How many references to object `id` under `key` are still undisposed. */
  function Live<K(==)>(refs: seq<Ref<K>>, key: K, id: nat): nat {
    if refs == [] then 0
    else
      var r := refs[|refs| - 1];
      Live(refs[..|refs| - 1], key, id) + (if r.key == key && r.id == id && !r.disposed then 1 else 0)
  }

  lemma LiveAppend<K>(refs: seq<Ref<K>>, r: Ref<K>, key: K, id: nat)
    ensures Live(refs + [r], key, id) == Live(refs, key, id) + (if r.key == key && r.id == id && !r.disposed then 1 else 0)
  {
    assert (refs + [r])[..|refs|] == refs;
  }

  /** Disposing one live reference lowers exactly its own object's count, by one. */
  lemma {:induction false} LiveDispose<K>(refs: seq<Ref<K>>, h: nat, key: K, id: nat)
    requires h < |refs| && !refs[h].disposed
    ensures Live(refs[h := refs[h].(disposed := true)], key, id)
         == Live(refs, key, id) - (if refs[h].key == key && refs[h].id == id then 1 else 0)
    ensures refs[h].key == key && refs[h].id == id ==> Live(refs, key, id) > 0
  {
    var rs := refs[h := refs[h].(disposed := true)];
    var n := |refs| - 1;
    assert rs[..n] == if h == n then refs[..n] else refs[..n][h := refs[h].(disposed := true)];
    if h < n {
      LiveDispose(refs[..n], h, key, id);
    }
  }

  /** No live reference is left to an object whose count is zero. */
  lemma {:induction false} LiveZero<K>(refs: seq<Ref<K>>, key: K, id: nat, i: nat)
    requires i < |refs| && Live(refs, key, id) == 0
    ensures !(refs[i].key == key && refs[i].id == id && !refs[i].disposed)
  {
    var n := |refs| - 1;
    if i < n {
      LiveZero(refs[..n], key, id, i);
    }
  }

  /** An identity no reference has yet has no live reference. */
  lemma {:induction false} LiveFresh<K>(refs: seq<Ref<K>>, key: K, id: nat)
    requires forall i :: 0 <= i < |refs| ==> refs[i].id < id
    ensures Live(refs, key, id) == 0
  {
    if refs != [] {
      LiveFresh(refs[..|refs| - 1], key, id);
    }
  }

  // ---------------------------------------------------------------------
  // Utility layers

  type LayerKey = (SceneId, string)

  datatype LayerInfo = LayerInfo(layer: nat, refCount: nat)

  /**
   * The utility-layer registry: per scene, a map from layer name to the
   * shared layer and its count; the references handed out; the identity
   * the next layer gets; and the layers disposed so far, in order.
   */
  datatype Layers = Layers(table: map<SceneId, map<string, LayerInfo>>, refs: seq<Ref<LayerKey>>, next: nat, disposed: seq<nat>)

  function LayerEntry(l: Layers, k: LayerKey): Option<LayerInfo> {
    if k.0 in l.table && k.1 in l.table[k.0] then Some(l.table[k.0][k.1]) else None
  }

  /**
   * The registry's invariant: no scene keeps an empty map; every entry's
   * count is positive and equals its undisposed references; every
   * undisposed reference points at the entry of its key.
   */
  ghost predicate LayersOk(l: Layers) {
    (forall s :: s in l.table ==> l.table[s] != map[])
    && (forall s, n :: s in l.table && n in l.table[s] ==>
          0 < l.table[s][n].refCount == Live(l.refs, (s, n), l.table[s][n].layer) && l.table[s][n].layer < l.next)
    && (forall i :: 0 <= i < |l.refs| ==> l.refs[i].id < l.next)
    && (forall i :: 0 <= i < |l.refs| && !l.refs[i].disposed ==>
          LayerEntry(l, l.refs[i].key).Some? && LayerEntry(l, l.refs[i].key).value.layer == l.refs[i].id)
  }

  function NoLayers(): (l: Layers)
    ensures LayersOk(l)
  {
    Layers(map[], [], 0, [])
  }

  /**
   * getUtilityLayer(scene, layer): the shared layer for the key, created on
   * first request, with its count raised by one, and a new reference to it.
   */
  function AcquireLayer(l: Layers, s: SceneId, n: string): (r: Layers)
    ensures LayerEntry(r, (s, n)).Some?
    ensures r.refs == l.refs + [Ref((s, n), LayerEntry(r, (s, n)).value.layer, false)]
  {
    var inner := if s in l.table then l.table[s] else map[];
    var info := if n in inner then inner[n] else LayerInfo(l.next, 0);
    var next := if n in inner then l.next else l.next + 1;
    var info' := info.(refCount := info.refCount + 1);
    Layers(l.table[s := inner[n := info']], l.refs + [Ref((s, n), info.layer, false)], next, l.disposed)
  }

  /**
   * A reference's dispose(): nothing the second time; the first time the
   * count drops by one, and at zero the layer is disposed, its entry
   * removed, and the scene's map removed once empty.
   */
  function ReleaseLayer(l: Layers, h: nat): (r: Layers)
    requires h < |l.refs|
    ensures r.refs == l.refs[h := l.refs[h].(disposed := true)]
  {
    if l.refs[h].disposed then l
    else
      var refs := l.refs[h := l.refs[h].(disposed := true)];
      var (s, n) := l.refs[h].key;
      if LayerEntry(l, (s, n)).None? then l.(refs := refs)
      else
        var info := l.table[s][n];
        if info.refCount <= 1 then
          var inner := l.table[s] - {n};
          Layers(if inner == map[] then l.table - {s} else l.table[s := inner], refs, l.next, l.disposed + [info.layer])
        else
          l.(table := l.table[s := l.table[s][n := info.(refCount := info.refCount - 1)]], refs := refs)
  }

  /**
   * A request finds the layer of its key or creates one with a fresh
   * identity, raises that layer's count by one and hands out a reference to
   * it; no other key's entry changes.
   */
  lemma AcquireLayerEffect(l: Layers, s: SceneId, n: string)
    ensures var r := AcquireLayer(l, s, n);
      (LayerEntry(l, (s, n)).Some? ==>
            LayerEntry(r, (s, n)) == Some(LayerEntry(l, (s, n)).value.(refCount := LayerEntry(l, (s, n)).value.refCount + 1))
            && r.next == l.next)
      && (LayerEntry(l, (s, n)).None? ==> LayerEntry(r, (s, n)) == Some(LayerInfo(l.next, 1)) && r.next == l.next + 1)
      && (forall k :: k != (s, n) ==> LayerEntry(r, k) == LayerEntry(l, k))
      && r.table.Keys == l.table.Keys + {s} && r.disposed == l.disposed
  {
  }

  /** Requests keep the registry's invariant: one shared layer per (scene, name), counted by its live references. */
  lemma AcquireLayerOk(l: Layers, s: SceneId, n: string)
    requires LayersOk(l)
    ensures LayersOk(AcquireLayer(l, s, n))
  {
    AcquireLayerCounts(l, s, n);
    AcquireLayerPointers(l, s, n);
  }

  lemma AcquireLayerCounts(l: Layers, s: SceneId, n: string)
    requires LayersOk(l)
    ensures var r := AcquireLayer(l, s, n);
      (forall s2, n2 :: s2 in r.table && n2 in r.table[s2] ==>
         0 < r.table[s2][n2].refCount == Live(r.refs, (s2, n2), r.table[s2][n2].layer) && r.table[s2][n2].layer < r.next)
  {
    AcquireLayerEffect(l, s, n);
    var r := AcquireLayer(l, s, n);
    var id := LayerEntry(r, (s, n)).value.layer;
    var added := Ref((s, n), id, false);
    if LayerEntry(l, (s, n)).None? {
      LiveFresh(l.refs, (s, n), l.next);
    }
    forall s2, n2 | s2 in r.table && n2 in r.table[s2]
      ensures 0 < r.table[s2][n2].refCount == Live(r.refs, (s2, n2), r.table[s2][n2].layer) && r.table[s2][n2].layer < r.next
    {
      assert LayerEntry(r, (s2, n2)) == Some(r.table[s2][n2]);
      LiveAppend(l.refs, added, (s2, n2), r.table[s2][n2].layer);
      if (s2, n2) != (s, n) {
        assert LayerEntry(l, (s2, n2)) == Some(r.table[s2][n2]);
        assert l.table[s2][n2] == r.table[s2][n2];
      }
    }
  }

  lemma AcquireLayerPointers(l: Layers, s: SceneId, n: string)
    requires LayersOk(l)
    ensures var r := AcquireLayer(l, s, n);
      (forall s2 :: s2 in r.table ==> r.table[s2] != map[])
      && (forall i :: 0 <= i < |r.refs| ==> r.refs[i].id < r.next)
      && (forall i :: 0 <= i < |r.refs| && !r.refs[i].disposed ==>
            LayerEntry(r, r.refs[i].key).Some? && LayerEntry(r, r.refs[i].key).value.layer == r.refs[i].id)
  {
    AcquireLayerEffect(l, s, n);
    var r := AcquireLayer(l, s, n);
    forall s2 | s2 in r.table
      ensures r.table[s2] != map[]
    {
      if s2 != s {
        assert r.table[s2] == l.table[s2];
      } else {
        assert n in r.table[s];
      }
    }
    forall i | 0 <= i < |r.refs| && !r.refs[i].disposed
      ensures LayerEntry(r, r.refs[i].key).Some? && LayerEntry(r, r.refs[i].key).value.layer == r.refs[i].id
    {
      if i < |l.refs| {
        assert r.refs[i] == l.refs[i];
      }
    }
  }

  /** Disposing a reference twice is the same as disposing it once. */
  lemma ReleaseLayerIdempotent(l: Layers, h: nat)
    requires h < |l.refs|
    ensures ReleaseLayer(ReleaseLayer(l, h), h) == ReleaseLayer(l, h)
  {
  }

  /**
   * The first dispose of a reference lowers its layer's count by one, and
   * at zero disposes that layer and drops its entry, and the scene's map
   * with it when that was the last layer; the invariant holds throughout.
   */
  lemma ReleaseLayerEffect(l: Layers, h: nat)
    requires LayersOk(l) && h < |l.refs|
    ensures var r := ReleaseLayer(l, h);
      var k := l.refs[h].key;
      LayersOk(r)
      && r.refs == l.refs[h := l.refs[h].(disposed := true)]
      && (forall k2 :: k2 != k ==> LayerEntry(r, k2) == LayerEntry(l, k2))
      && (!l.refs[h].disposed ==>
            var e := LayerEntry(l, k).value;
            (e.refCount > 1 ==> LayerEntry(r, k) == Some(e.(refCount := e.refCount - 1)) && r.disposed == l.disposed)
            && (e.refCount == 1 ==>
                  LayerEntry(r, k).None? && r.disposed == l.disposed + [e.layer]
                  && (k.0 in r.table <==> l.table[k.0].Keys != {k.1})))
  {
    if !l.refs[h].disposed {
      ReleaseLayerLive(l, h);
    }
  }

  /** Disposing a reference keeps the registry's invariant. */
  lemma ReleaseLayerOk(l: Layers, h: nat)
    requires LayersOk(l) && h < |l.refs|
    ensures LayersOk(ReleaseLayer(l, h)) && |ReleaseLayer(l, h).refs| == |l.refs|
  {
    if !l.refs[h].disposed {
      ReleaseLayerLive(l, h);
    }
  }

  lemma ReleaseLayerLive(l: Layers, h: nat)
    requires LayersOk(l) && h < |l.refs| && !l.refs[h].disposed
    ensures var r := ReleaseLayer(l, h);
      var k := l.refs[h].key;
      LayersOk(r)
      && (forall k2 :: k2 != k ==> LayerEntry(r, k2) == LayerEntry(l, k2))
      && (var e := LayerEntry(l, k).value;
          (e.refCount > 1 ==> LayerEntry(r, k) == Some(e.(refCount := e.refCount - 1)) && r.disposed == l.disposed)
          && (e.refCount == 1 ==>
                LayerEntry(r, k).None? && r.disposed == l.disposed + [e.layer]
                && (k.0 in r.table <==> l.table[k.0].Keys != {k.1})))
  {
    ReleaseLayerEntries(l, h);
    ReleaseLayerCounts(l, h);
    ReleaseLayerPointers(l, h);
  }

  /** How the table changes when a live reference is disposed. */
  lemma ReleaseLayerEntries(l: Layers, h: nat)
    requires LayersOk(l) && h < |l.refs| && !l.refs[h].disposed
    ensures var r := ReleaseLayer(l, h);
      var k := l.refs[h].key;
      r.refs == l.refs[h := l.refs[h].(disposed := true)] && r.next == l.next
      && (forall s :: s in r.table ==> r.table[s] != map[])
      && (forall k2 :: k2 != k ==> LayerEntry(r, k2) == LayerEntry(l, k2))
      && (var e := LayerEntry(l, k).value;
          (e.refCount > 1 ==> LayerEntry(r, k) == Some(e.(refCount := e.refCount - 1)) && r.disposed == l.disposed)
          && (e.refCount == 1 ==>
                LayerEntry(r, k).None? && r.disposed == l.disposed + [e.layer]
                && (k.0 in r.table <==> l.table[k.0].Keys != {k.1})))
  {
    var r := ReleaseLayer(l, h);
    var (s, n) := l.refs[h].key;
    var e := l.table[s][n];
    assert e.refCount > 0;
    if e.refCount == 1 {
      var inner := l.table[s] - {n};
      assert inner.Keys == l.table[s].Keys - {n};
      assert inner == map[] <==> l.table[s].Keys == {n} by {
        assert inner == map[] <==> inner.Keys == {};
      }
    }
    forall s2 | s2 in r.table
      ensures r.table[s2] != map[]
    {
      if s2 != s {
        assert r.table[s2] == l.table[s2];
      }
    }
  }

  lemma ReleaseLayerCounts(l: Layers, h: nat)
    requires LayersOk(l) && h < |l.refs| && !l.refs[h].disposed
    ensures var r := ReleaseLayer(l, h);
      forall s, n :: s in r.table && n in r.table[s] ==>
        0 < r.table[s][n].refCount == Live(r.refs, (s, n), r.table[s][n].layer) && r.table[s][n].layer < r.next
  {
    var r := ReleaseLayer(l, h);
    var k := l.refs[h].key;
    ReleaseLayerEntries(l, h);
    forall s2, n2 | s2 in r.table && n2 in r.table[s2]
      ensures 0 < r.table[s2][n2].refCount == Live(r.refs, (s2, n2), r.table[s2][n2].layer) && r.table[s2][n2].layer < r.next
    {
      assert LayerEntry(r, (s2, n2)) == Some(r.table[s2][n2]);
      LiveDispose(l.refs, h, (s2, n2), r.table[s2][n2].layer);
      if (s2, n2) != k {
        assert LayerEntry(l, (s2, n2)) == Some(r.table[s2][n2]);
      }
    }
  }

  lemma ReleaseLayerPointers(l: Layers, h: nat)
    requires LayersOk(l) && h < |l.refs| && !l.refs[h].disposed
    ensures var r := ReleaseLayer(l, h);
      (forall i :: 0 <= i < |r.refs| ==> r.refs[i].id < r.next)
      && (forall i :: 0 <= i < |r.refs| && !r.refs[i].disposed ==>
            LayerEntry(r, r.refs[i].key).Some? && LayerEntry(r, r.refs[i].key).value.layer == r.refs[i].id)
  {
    var r := ReleaseLayer(l, h);
    var k := l.refs[h].key;
    var e := LayerEntry(l, k).value;
    ReleaseLayerEntries(l, h);
    LiveDispose(l.refs, h, k, e.layer);
    forall i | 0 <= i < |r.refs| && !r.refs[i].disposed
      ensures LayerEntry(r, r.refs[i].key).Some? && LayerEntry(r, r.refs[i].key).value.layer == r.refs[i].id
    {
      assert r.refs[i] == l.refs[i];
      if e.refCount == 1 && r.refs[i].key == k {
        LiveZero(r.refs, k, e.layer, i);
      }
    }
  }

  // ---------------------------------------------------------------------
  // Camera and light gizmos

  datatype GizmoKind = CameraGizmo | LightGizmo

  type GizmoKey = (GizmoKind, NodeId)

  /** A shared gizmo: its identity, its count, and the utility-layer reference it holds. */
  datatype GizmoInfo = GizmoInfo(gizmo: nat, refCount: nat, layerRef: nat)

  datatype Gizmos = Gizmos(table: map<GizmoKey, GizmoInfo>, refs: seq<Ref<GizmoKey>>, next: nat, disposed: seq<nat>)

  /**
   * The gizmo registry's invariant, as for layers; each gizmo's layer
   * reference is one the layer registry handed out.
   */
  ghost predicate GizmosOk(g: Gizmos, layerRefs: nat) {
    (forall k :: k in g.table ==>
       0 < g.table[k].refCount == Live(g.refs, k, g.table[k].gizmo) && g.table[k].gizmo < g.next
       && g.table[k].layerRef < layerRefs)
    && (forall i :: 0 <= i < |g.refs| ==> g.refs[i].id < g.next)
    && (forall i :: 0 <= i < |g.refs| && !g.refs[i].disposed ==>
          g.refs[i].key in g.table && g.table[g.refs[i].key].gizmo == g.refs[i].id)
  }

  function NoGizmos(): (g: Gizmos)
    ensures GizmosOk(g, 0)
  {
    Gizmos(map[], [], 0, [])
  }

  /**
   * getGizmo(node, scene, ...): on first request a gizmo is created, taking
   * a reference to the scene's default utility layer; then its count rises
   * by one and a new reference is handed out.
   */
  function AcquireGizmo(g: Gizmos, l: Layers, k: GizmoKey, scene: SceneId): (r: (Gizmos, Layers))
    ensures |r.0.refs| == |g.refs| + 1 && |r.1.refs| >= |l.refs|
  {
    if k in g.table then
      var info := g.table[k];
      (g.(table := g.table[k := info.(refCount := info.refCount + 1)], refs := g.refs + [Ref(k, info.gizmo, false)]), l)
    else
      var l' := AcquireLayer(l, scene, DefaultLayer);
      var info := GizmoInfo(g.next, 1, |l.refs|);
      (Gizmos(g.table[k := info], g.refs + [Ref(k, g.next, false)], g.next + 1, g.disposed), l')
  }

  /**
   * A gizmo reference's dispose(): nothing the second time; the first time
   * the count drops by one, and at zero the gizmo is disposed, which
   * releases its utility-layer reference, and its entry is removed.
   */
  function ReleaseGizmo(g: Gizmos, l: Layers, h: nat): (r: (Gizmos, Layers))
    requires h < |g.refs|
    requires forall k :: k in g.table ==> g.table[k].layerRef < |l.refs|
    ensures |r.0.refs| == |g.refs| && |r.1.refs| == |l.refs| && r.0.refs[h].disposed
  {
    if g.refs[h].disposed then (g, l)
    else
      var refs := g.refs[h := g.refs[h].(disposed := true)];
      var k := g.refs[h].key;
      if k !in g.table then (g.(refs := refs), l)
      else
        var info := g.table[k];
        if info.refCount <= 1 then
          (Gizmos(g.table - {k}, refs, g.next, g.disposed + [info.gizmo]), ReleaseLayer(l, info.layerRef))
        else
          (g.(table := g.table[k := info.(refCount := info.refCount - 1)], refs := refs), l)
  }

  const DefaultLayer := "default"
  const KeepDepthLayer := "keepDepth"

  /**
   * Each request raises the node's gizmo count by one and hands out a
   * reference to it; a new gizmo gets a fresh identity and a reference to
   * the scene's default utility layer; no other node's entry changes.
   */
  lemma AcquireGizmoEffect(g: Gizmos, l: Layers, k: GizmoKey, scene: SceneId)
    ensures var (g', l') := AcquireGizmo(g, l, k, scene);
      k in g'.table && g'.refs == g.refs + [Ref(k, g'.table[k].gizmo, false)]
      && (k in g.table ==>
            g'.table == g.table[k := g.table[k].(refCount := g.table[k].refCount + 1)] && l' == l && g'.next == g.next)
      && (k !in g.table ==>
            g'.table == g.table[k := GizmoInfo(g.next, 1, |l.refs|)] && l' == AcquireLayer(l, scene, DefaultLayer)
            && g'.next == g.next + 1)
      && g'.disposed == g.disposed
  {
  }

  /** Requests keep both registries' invariants. */
  lemma AcquireGizmoOk(g: Gizmos, l: Layers, k: GizmoKey, scene: SceneId)
    requires GizmosOk(g, |l.refs|) && LayersOk(l)
    ensures GizmosOk(AcquireGizmo(g, l, k, scene).0, |AcquireGizmo(g, l, k, scene).1.refs|)
    ensures LayersOk(AcquireGizmo(g, l, k, scene).1)
  {
    AcquireGizmoEffect(g, l, k, scene);
    var (g', l') := AcquireGizmo(g, l, k, scene);
    if k !in g.table {
      AcquireLayerOk(l, scene, DefaultLayer);
    }
    GizmoAddedOk(g, g', k, |l.refs|, |l'.refs|);
  }

  /** A table and reference list changed as a request changes them still satisfy the invariant. */
  lemma GizmoAddedOk(g: Gizmos, g': Gizmos, k: GizmoKey, n: nat, n': nat)
    requires GizmosOk(g, n) && n <= n'
    requires k in g'.table && g'.refs == g.refs + [Ref(k, g'.table[k].gizmo, false)]
    requires k in g.table ==> g'.table == g.table[k := g.table[k].(refCount := g.table[k].refCount + 1)] && g'.next == g.next
    requires k !in g.table ==> g'.table == g.table[k := GizmoInfo(g.next, 1, n)] && g'.next == g.next + 1 && n < n'
    ensures GizmosOk(g', n')
  {
    if k !in g.table {
      LiveFresh(g.refs, k, g.next);
    }
    var added := g'.refs[|g.refs|];
    forall k2 | k2 in g'.table
      ensures 0 < g'.table[k2].refCount == Live(g'.refs, k2, g'.table[k2].gizmo)
    {
      LiveAppend(g.refs, added, k2, g'.table[k2].gizmo);
      if k2 != k {
        assert g'.table[k2] == g.table[k2];
      }
    }
    forall i | 0 <= i < |g'.refs| && !g'.refs[i].disposed
      ensures g'.refs[i].key in g'.table && g'.table[g'.refs[i].key].gizmo == g'.refs[i].id
    {
      if i < |g.refs| {
        assert g'.refs[i] == g.refs[i];
      }
    }
  }

  /** Disposing a gizmo reference twice is the same as disposing it once. */
  lemma ReleaseGizmoIdempotent(g: Gizmos, l: Layers, h: nat)
    requires h < |g.refs| && forall k :: k in g.table ==> g.table[k].layerRef < |l.refs|
    ensures var (g', l') := ReleaseGizmo(g, l, h);
      (forall k :: k in g'.table ==> g'.table[k].layerRef < |l'.refs|)
      && ReleaseGizmo(g', l', h) == (g', l')
  {
  }

  /**
   * The first dispose of a gizmo reference lowers the count by one; at
   * zero the gizmo is disposed, its entry removed and its layer reference
   * released; both invariants hold throughout.
   */
  lemma ReleaseGizmoEffect(g: Gizmos, l: Layers, h: nat)
    requires GizmosOk(g, |l.refs|) && h < |g.refs|
    ensures var (g', l') := ReleaseGizmo(g, l, h);
      var k := g.refs[h].key;
      g'.refs == g.refs[h := g.refs[h].(disposed := true)]
      && (forall k2 :: k2 != k ==> (k2 in g'.table <==> k2 in g.table) && (k2 in g.table ==> g'.table[k2] == g.table[k2]))
      && (!g.refs[h].disposed ==>
            (g.table[k].refCount > 1 ==> g'.table[k] == g.table[k].(refCount := g.table[k].refCount - 1) && l' == l)
            && (g.table[k].refCount == 1 ==>
                  k !in g'.table && g'.disposed == g.disposed + [g.table[k].gizmo]
                  && l' == ReleaseLayer(l, g.table[k].layerRef)))
  {
  }

  /** Disposing a gizmo reference keeps both registries' invariants. */
  lemma ReleaseGizmoOk(g: Gizmos, l: Layers, h: nat)
    requires GizmosOk(g, |l.refs|) && LayersOk(l) && h < |g.refs|
    ensures GizmosOk(ReleaseGizmo(g, l, h).0, |ReleaseGizmo(g, l, h).1.refs|)
    ensures LayersOk(ReleaseGizmo(g, l, h).1)
  {
    if !g.refs[h].disposed {
      ReleaseGizmoLive(g, l, h);
    }
  }

  lemma ReleaseGizmoLive(g: Gizmos, l: Layers, h: nat)
    requires GizmosOk(g, |l.refs|) && LayersOk(l) && h < |g.refs| && !g.refs[h].disposed
    ensures var (g', l') := ReleaseGizmo(g, l, h);
      GizmosOk(g', |l'.refs|) && LayersOk(l')
  {
    var (g', l') := ReleaseGizmo(g, l, h);
    var e := g.table[g.refs[h].key];
    if e.refCount == 1 {
      ReleaseLayerOk(l, e.layerRef);
    }
    GizmoReleasedOk(g, g', h, |l.refs|);
  }

  /** A table and reference list changed as a first dispose changes them still satisfy the invariant. */
  lemma GizmoReleasedOk(g: Gizmos, g': Gizmos, h: nat, n: nat)
    requires GizmosOk(g, n) && h < |g.refs| && !g.refs[h].disposed
    requires g'.refs == g.refs[h := g.refs[h].(disposed := true)] && g'.next == g.next
    requires var k := g.refs[h].key;
      (g.table[k].refCount <= 1 ==> g'.table == g.table - {k})
      && (g.table[k].refCount > 1 ==> g'.table == g.table[k := g.table[k].(refCount := g.table[k].refCount - 1)])
    ensures GizmosOk(g', n)
  {
    var k := g.refs[h].key;
    var e := g.table[k];
    var rs := g'.refs;
    LiveDispose(g.refs, h, k, e.gizmo);
    forall k2 | k2 in g'.table
      ensures 0 < g'.table[k2].refCount == Live(g'.refs, k2, g'.table[k2].gizmo)
    {
      LiveDispose(g.refs, h, k2, g'.table[k2].gizmo);
      if k2 != k {
        assert g'.table[k2] == g.table[k2];
      }
    }
    forall i | 0 <= i < |g'.refs| && !g'.refs[i].disposed
      ensures g'.refs[i].key in g'.table && g'.table[g'.refs[i].key].gizmo == g'.refs[i].id
    {
      assert g'.refs[i] == g.refs[i];
      if e.refCount == 1 && g'.refs[i].key == k {
        LiveZero(rs, k, e.gizmo, i);
      }
    }
  }

  /** getCameraGizmos(scene) / getLightGizmos(scene): the gizmos of the scene's nodes that have one, in node order. */
  function GizmosOf(g: Gizmos, kind: GizmoKind, nodes: seq<NodeId>): (r: seq<nat>)
    ensures |r| <= |nodes|
    ensures forall n :: n in nodes && (kind, n) in g.table ==> g.table[(kind, n)].gizmo in r
    ensures forall x :: x in r ==> exists n :: n in nodes && (kind, n) in g.table && g.table[(kind, n)].gizmo == x
  {
    if nodes == [] then []
    else
      var rest := GizmosOf(g, kind, nodes[1..]);
      var n := nodes[0];
      assert forall m :: m in nodes[1..] ==> m in nodes;
      if (kind, n) in g.table then [g.table[(kind, n)].gizmo] + rest else rest
  }

  /**
   * The lists are built node by node in the scene's order: the gizmos of a
   * concatenation are those of each part, in turn.
   */
  lemma {:induction false} GizmosOfConcat(g: Gizmos, kind: GizmoKind, a: seq<NodeId>, b: seq<NodeId>)
    ensures GizmosOf(g, kind, a + b) == GizmosOf(g, kind, a) + GizmosOf(g, kind, b)
  {
    if a == [] {
      assert a + b == b;
    } else {
      assert (a + b)[1..] == a[1..] + b;
      GizmosOfConcat(g, kind, a[1..], b);
    }
  }

  /** A single node contributes its gizmo, if it has one. */
  lemma GizmosOfSingle(g: Gizmos, kind: GizmoKind, n: NodeId)
    ensures GizmosOf(g, kind, [n]) == (if (kind, n) in g.table then [g.table[(kind, n)].gizmo] else [])
  {
    assert [n][1..] == [];
  }

  /**
   * A node's disposal, through the observer its new gizmo registered: the
   * gizmo is disposed, which releases its layer reference, but its entry
   * and count stay in the registry. The observer fires at most once, and
   * any dispose of the gizmo removes it, so it fires only while that
   * gizmo has not been disposed.
   */
  function NodeDisposal(g: Gizmos, l: Layers, k: GizmoKey): (r: (Gizmos, Layers))
    requires forall k2 :: k2 in g.table ==> g.table[k2].layerRef < |l.refs|
    ensures r.0.table == g.table && r.0.refs == g.refs && r.0.next == g.next && |r.1.refs| == |l.refs|
    ensures k in g.table && g.table[k].gizmo !in g.disposed ==> r.1.refs[g.table[k].layerRef].disposed
  {
    if k in g.table && g.table[k].gizmo !in g.disposed then
      (g.(disposed := g.disposed + [g.table[k].gizmo]), ReleaseLayer(l, g.table[k].layerRef))
    else
      (g, l)
  }

  /**
   * The node's disposal keeps both invariants, disposes the gizmo once and
   * releases its layer reference; it has no further effect the second time.
   */
  lemma NodeDisposalEffect(g: Gizmos, l: Layers, k: GizmoKey)
    requires GizmosOk(g, |l.refs|) && LayersOk(l)
    ensures var (g', l') := NodeDisposal(g, l, k);
      GizmosOk(g', |l'.refs|) && LayersOk(l')
      && (k in g.table && g.table[k].gizmo !in g.disposed ==>
            g'.disposed == g.disposed + [g.table[k].gizmo] && l' == ReleaseLayer(l, g.table[k].layerRef))
      && NodeDisposal(g', l', k) == (g', l')
  {
    if k in g.table && g.table[k].gizmo !in g.disposed {
      ReleaseLayerOk(l, g.table[k].layerRef);
    }
  }

  /**
   * After the node's disposal its entry still stands, so a later request
   * hands out a reference to the gizmo already disposed, and takes no new
   * layer reference.
   */
  lemma NodeDisposedStale(g: Gizmos, l: Layers, k: GizmoKey, scene: SceneId)
    requires forall k2 :: k2 in g.table ==> g.table[k2].layerRef < |l.refs|
    requires k in g.table && g.table[k].gizmo !in g.disposed
    ensures var (g1, l1) := NodeDisposal(g, l, k);
      var (g2, l2) := AcquireGizmo(g1, l1, k, scene);
      g2.refs[|g.refs|] == Ref(k, g.table[k].gizmo, false) && g.table[k].gizmo in g2.disposed && l2 == l1
  {
    var (g1, l1) := NodeDisposal(g, l, k);
    AcquireGizmoEffect(g1, l1, k, scene);
  }

  /**
   * After the node's disposal, the dispose of the last reference disposes
   * the gizmo a second time, while its layer reference, already released,
   * is left as it is.
   */
  lemma NodeDisposedTwice(g: Gizmos, l: Layers, h: nat)
    requires GizmosOk(g, |l.refs|) && h < |g.refs| && !g.refs[h].disposed
    requires var k := g.refs[h].key; g.table[k].refCount == 1 && g.table[k].gizmo !in g.disposed
    ensures var k := g.refs[h].key;
      var (g1, l1) := NodeDisposal(g, l, k);
      var (g2, l2) := ReleaseGizmo(g1, l1, h);
      multiset(g2.disposed)[g.table[k].gizmo] == multiset(g.disposed)[g.table[k].gizmo] + 2 && l2 == l1
  {
    var k := g.refs[h].key;
    var x := g.table[k].gizmo;
    var (g1, l1) := NodeDisposal(g, l, k);
    var (g2, l2) := ReleaseGizmo(g1, l1, h);
    assert g2.disposed == g.disposed + [x] + [x];
    assert x !in multiset(g.disposed);
  }

  /** The held visualization reference, if any, disposed: how syncGizmoManager and destroyGizmoManager begin. */
  function DropHeld(g: Gizmos, l: Layers, held: Option<nat>): (r: (Gizmos, Layers))
    requires held.Some? ==> held.value < |g.refs|
    requires forall k :: k in g.table ==> g.table[k].layerRef < |l.refs|
    ensures |r.0.refs| == |g.refs| && |r.1.refs| == |l.refs|
    ensures held.Some? ==> r.0.refs[held.value].disposed
  {
    if held.None? then (g, l) else ReleaseGizmo(g, l, held.value)
  }

  /** The camera or light gizmo syncGizmoManager takes for the selection, with the scene it is made for. */
  function HeldKey(mode: Option<GizmoMode>, selected: Option<Selected>): (r: Option<(GizmoKey, SceneId)>)
    ensures r.Some? <==>
      mode.Some? && selected.Some? && (selected.value.kind.CameraSelection? || selected.value.kind.LightSelection?)
  {
    if mode.None? || selected.None? then None
    else
      match selected.value.kind
      case CameraSelection(camera, scene, _) => Some(((CameraGizmo, camera), scene))
      case LightSelection(light, scene, _) => Some(((LightGizmo, light), scene))
      case _ => None
  }

  /** The registries after the selection's gizmo, if any, is requested. */
  function TakeHeld(g: Gizmos, l: Layers, mode: Option<GizmoMode>, selected: Option<Selected>): (r: (Gizmos, Layers))
    ensures |r.0.refs| == |g.refs| + (if HeldKey(mode, selected).Some? then 1 else 0)
    ensures HeldKey(mode, selected).Some? ==>
      var k := HeldKey(mode, selected).value.0;
      k in r.0.table && r.0.refs[|g.refs|] == Ref(k, r.0.table[k].gizmo, false)
    ensures forall i :: 0 <= i < |g.refs| ==> r.0.refs[i] == g.refs[i]
  {
    var k := HeldKey(mode, selected);
    if k.Some? then
      AcquireGizmoEffect(g, l, k.value.0, k.value.1);
      AcquireGizmo(g, l, k.value.0, k.value.1)
    else
      (g, l)
  }

  /**
   * The registries after syncGizmoManager: the held reference dropped, then,
   * with a manager, the selection's gizmo requested.
   */
  function SyncRegistries(g: Gizmos, l: Layers, held: Option<nat>, hasManager: bool,
                          mode: Option<GizmoMode>, selected: Option<Selected>): (r: (Gizmos, Layers))
    requires held.Some? ==> held.value < |g.refs|
    requires forall k :: k in g.table ==> g.table[k].layerRef < |l.refs|
    ensures |r.0.refs| == |g.refs| + (if hasManager && HeldKey(mode, selected).Some? then 1 else 0)
    ensures held.Some? ==> r.0.refs[held.value].disposed
  {
    var d := DropHeld(g, l, held);
    if hasManager then TakeHeld(d.0, d.1, mode, selected) else d
  }

  /** The reference syncGizmoManager holds afterwards: the one it took, next after the existing ones. */
  function SyncHeld(g: Gizmos, hasManager: bool, mode: Option<GizmoMode>, selected: Option<Selected>): (r: Option<nat>)
    ensures r.Some? <==> hasManager && HeldKey(mode, selected).Some?
    ensures r.Some? ==> r.value == |g.refs|
  {
    if hasManager && HeldKey(mode, selected).Some? then Some(|g.refs|) else None
  }

  /**
   * The manager after syncGizmoManager: exactly the flag of the mode
   * resolved for the selection is on and the attachment follows it; its
   * layer references and coordinates mode stay.
   */
  function SyncManager(m: Option<Manager>, mode: Option<GizmoMode>, selected: Option<Selected>): (r: Option<Manager>)
    ensures r.Some? <==> m.Some?
    ensures r.Some? ==>
      var entity := Resolved(mode, selected);
      var rm := ResolveMode(mode, entity);
      r.value.enabled == EnabledFor(rm) && r.value.attached == AttachFor(rm, entity, m.value.attached)
      && r.value.layerRef == m.value.layerRef && r.value.keepDepthRef == m.value.keepDepthRef
      && r.value.coordinatesMode == m.value.coordinatesMode
  {
    if m.None? then None
    else
      var entity := Resolved(mode, selected);
      var rm := ResolveMode(mode, entity);
      Some(m.value.(enabled := EnabledFor(rm), attached := AttachFor(rm, entity, m.value.attached)))
  }

  /**
   * The registries after destroyGizmoManager: the held reference dropped,
   * then, with a manager, its default-layer and keepDepth-layer references
   * disposed in that order.
   */
  function DestroyRegistries(g: Gizmos, l: Layers, held: Option<nat>, m: Option<Manager>): (r: (Gizmos, Layers))
    requires held.Some? ==> held.value < |g.refs|
    requires forall k :: k in g.table ==> g.table[k].layerRef < |l.refs|
    requires m.Some? ==> m.value.layerRef < |l.refs| && m.value.keepDepthRef < |l.refs|
    ensures |r.0.refs| == |g.refs| && |r.1.refs| == |l.refs|
    ensures held.Some? ==> r.0.refs[held.value].disposed
    ensures m.Some? ==> r.1.refs[m.value.layerRef].disposed && r.1.refs[m.value.keepDepthRef].disposed
  {
    var d := DropHeld(g, l, held);
    if m.None? then d
    else (d.0, ReleaseLayer(ReleaseLayer(d.1, m.value.layerRef), m.value.keepDepthRef))
  }

  // ---------------------------------------------------------------------
  // Modes and the selected entity

  datatype GizmoMode = Translate | Rotate | Scale | BoundingBox

  datatype CoordinatesMode = Local | World

  /** What the resolution needs to know of an entity: its identity, which transform properties it has, and its class. */
  datatype Target = Target(id: nat, hasPosition: bool, hasRotation: bool, hasScaling: bool, isMesh: bool, isNode: bool)

  /**
   * The selected entity: a camera or a light (with the node its
   * visualization gizmo reports as attached), a bone (with its transform
   * node, if any), or anything else.
   */
  datatype SelectionKind =
    | CameraSelection(camera: NodeId, scene: SceneId, gizmoAttached: Option<Target>)
    | LightSelection(light: NodeId, scene: SceneId, gizmoAttached: Option<Target>)
    | BoneSelection(transformNode: Option<Target>)
    | OtherSelection

  datatype Selected = Selected(self: Target, kind: SelectionKind)

  /**
   * The mode actually applied: none without an entity; for translate,
   * rotate and scale, none unless the entity has position, rotation or
   * scaling; otherwise none unless it is a mesh.
   */
  function ResolveMode(mode: Option<GizmoMode>, entity: Option<Target>): (r: Option<GizmoMode>)
    ensures entity.None? ==> r.None?
    ensures r.Some? ==> r == mode
    ensures entity.Some? && mode == Some(Translate) ==> (r.Some? <==> entity.value.hasPosition)
    ensures entity.Some? && mode == Some(Rotate) ==> (r.Some? <==> entity.value.hasRotation)
    ensures entity.Some? && mode == Some(Scale) ==> (r.Some? <==> entity.value.hasScaling)
    ensures entity.Some? && mode == Some(BoundingBox) ==> (r.Some? <==> entity.value.isMesh)
  {
    if entity.None? then None
    else
      var e := entity.value;
      match mode
      case Some(Translate) => if e.hasPosition then mode else None
      case Some(Rotate) => if e.hasRotation then mode else None
      case Some(Scale) => if e.hasScaling then mode else None
      case _ => if e.isMesh then mode else None
  }

  /** The four enable flags of the gizmo manager. */
  datatype Enabled = Enabled(position: bool, rotation: bool, scaling: bool, boundingBox: bool)

  function EnabledFor(mode: Option<GizmoMode>): (f: Enabled)
    ensures mode.None? ==> f == Enabled(false, false, false, false)
    ensures f.position <==> mode == Some(Translate)
    ensures f.rotation <==> mode == Some(Rotate)
    ensures f.scaling <==> mode == Some(Scale)
    ensures f.boundingBox <==> mode == Some(BoundingBox)
  {
    Enabled(mode == Some(Translate), mode == Some(Rotate), mode == Some(Scale), mode == Some(BoundingBox))
  }

  /** Exactly one flag is set when a mode is resolved, and none otherwise. */
  lemma ExactlyOneEnabled(mode: Option<GizmoMode>)
    ensures var f := EnabledFor(mode);
      var count := (if f.position then 1 else 0) + (if f.rotation then 1 else 0)
                 + (if f.scaling then 1 else 0) + (if f.boundingBox then 1 else 0);
      count == (if mode.Some? then 1 else 0)
  {
    match mode {
      case None =>
      case Some(m) =>
        match m {
          case Translate =>
          case Rotate =>
          case Scale =>
          case BoundingBox =>
        }
    }
  }

  datatype Attachment = Detached | ToMesh(mesh: nat) | ToNode(node: nat)

  datatype Manager = Manager(enabled: Enabled, coordinatesMode: CoordinatesMode, attached: Attachment,
                             layerRef: nat, keepDepthRef: nat)

  /** Where the gizmo manager ends up attached: detached without a mode; else to the mesh or node, or left as it was. */
  function AttachFor(mode: Option<GizmoMode>, entity: Option<Target>, current: Attachment): (a: Attachment)
    ensures mode.None? ==> a == Detached
    ensures mode.Some? && entity.Some? && entity.value.isMesh ==> a == ToMesh(entity.value.id)
  {
    if mode.None? then Detached
    else if entity.Some? && entity.value.isMesh then ToMesh(entity.value.id)
    else if entity.Some? && entity.value.isNode then ToNode(entity.value.id)
    else current
  }

  // ---------------------------------------------------------------------
  // The service

  class Service {
    var layers: Layers
    var gizmos: Gizmos
    var gizmoMode: Option<GizmoMode>
    var coordinatesMode: CoordinatesMode
    /** How many times each observable notified its observers. */
    var modeNotifications: nat
    var coordinatesNotifications: nat
    var manager: Option<Manager>
    /** The camera or light gizmo reference held for the selection. */
    var visualization: Option<nat>

    ghost predicate Valid()
      reads this
    {
      LayersOk(layers) && GizmosOk(gizmos, |layers.refs|)
      && (manager.Some? ==> manager.value.layerRef < |layers.refs| && manager.value.keepDepthRef < |layers.refs|)
      && (visualization.Some? ==> visualization.value < |gizmos.refs|)
    }

    constructor ()
      ensures Valid() && gizmoMode.None? && coordinatesMode == Local && manager.None? && visualization.None?
      ensures layers == NoLayers() && gizmos == NoGizmos()
      ensures modeNotifications == 0 && coordinatesNotifications == 0
    {
      layers := NoLayers();
      gizmos := NoGizmos();
      gizmoMode := None;
      coordinatesMode := Local;
      modeNotifications := 0;
      coordinatesNotifications := 0;
      manager := None;
      visualization := None;
    }

    method GetUtilityLayer(scene: SceneId, name: string) returns (h: nat)
      requires Valid()
      modifies this
      ensures Valid() && layers == AcquireLayer(old(layers), scene, name) && h == |old(layers.refs)|
      ensures layers.refs == old(layers.refs) + [Ref((scene, name), LayerEntry(layers, (scene, name)).value.layer, false)]
      ensures gizmos == old(gizmos) && manager == old(manager) && visualization == old(visualization)
      ensures gizmoMode == old(gizmoMode) && coordinatesMode == old(coordinatesMode)
      ensures modeNotifications == old(modeNotifications) && coordinatesNotifications == old(coordinatesNotifications)
    {
      AcquireLayerOk(layers, scene, name);
      h := |layers.refs|;
      layers := AcquireLayer(layers, scene, name);
    }

    method DisposeLayerRef(h: nat)
      requires Valid() && h < |layers.refs|
      modifies this
      ensures Valid() && layers == ReleaseLayer(old(layers), h)
      ensures gizmos == old(gizmos) && manager == old(manager) && visualization == old(visualization)
      ensures gizmoMode == old(gizmoMode) && coordinatesMode == old(coordinatesMode)
      ensures modeNotifications == old(modeNotifications) && coordinatesNotifications == old(coordinatesNotifications)
    {
      ReleaseLayerOk(layers, h);
      layers := ReleaseLayer(layers, h);
    }

    /** getCameraGizmo(camera) / getLightGizmo(light). */
    method GetGizmo(kind: GizmoKind, node: NodeId, scene: SceneId) returns (h: nat)
      requires Valid()
      modifies this
      ensures Valid() && (gizmos, layers) == AcquireGizmo(old(gizmos), old(layers), (kind, node), scene)
      ensures h == |old(gizmos.refs)|
      ensures manager == old(manager) && visualization == old(visualization)
      ensures gizmoMode == old(gizmoMode) && coordinatesMode == old(coordinatesMode)
      ensures modeNotifications == old(modeNotifications) && coordinatesNotifications == old(coordinatesNotifications)
    {
      AcquireGizmoOk(gizmos, layers, (kind, node), scene);
      h := |gizmos.refs|;
      var p := AcquireGizmo(gizmos, layers, (kind, node), scene);
      gizmos, layers := p.0, p.1;
    }

    method DisposeGizmoRef(h: nat)
      requires Valid() && h < |gizmos.refs|
      modifies this
      ensures Valid() && (gizmos, layers) == ReleaseGizmo(old(gizmos), old(layers), h)
      ensures manager == old(manager) && visualization == old(visualization)
      ensures gizmoMode == old(gizmoMode) && coordinatesMode == old(coordinatesMode)
      ensures modeNotifications == old(modeNotifications) && coordinatesNotifications == old(coordinatesNotifications)
    {
      ReleaseGizmoOk(gizmos, layers, h);
      var p := ReleaseGizmo(gizmos, layers, h);
      gizmos, layers := p.0, p.1;
    }

    /** The disposal of a node with a camera or light gizmo, seen through the observer that gizmo registered. */
    method NodeDisposed(kind: GizmoKind, node: NodeId)
      requires Valid()
      modifies this
      ensures Valid() && (gizmos, layers) == NodeDisposal(old(gizmos), old(layers), (kind, node))
      ensures manager == old(manager) && visualization == old(visualization)
      ensures gizmoMode == old(gizmoMode) && coordinatesMode == old(coordinatesMode)
      ensures modeNotifications == old(modeNotifications) && coordinatesNotifications == old(coordinatesNotifications)
    {
      NodeDisposalEffect(gizmos, layers, (kind, node));
      var p := NodeDisposal(gizmos, layers, (kind, node));
      gizmos, layers := p.0, p.1;
    }

    /** The visualization gizmo reference held for the selection, if any, is disposed and forgotten. */
    method DropVisualization()
      requires Valid()
      modifies this
      ensures Valid() && visualization.None? && manager == old(manager)
      ensures old(visualization).None? ==> gizmos == old(gizmos) && layers == old(layers)
      ensures old(visualization).Some? ==> (gizmos, layers) == ReleaseGizmo(old(gizmos), old(layers), old(visualization).value)
      ensures gizmoMode == old(gizmoMode) && coordinatesMode == old(coordinatesMode)
      ensures modeNotifications == old(modeNotifications) && coordinatesNotifications == old(coordinatesNotifications)
    {
      if visualization.Some? {
        DisposeGizmoRef(visualization.value);
        visualization := None;
      }
    }

    /** A reference to the node's camera or light gizmo is taken and held for the selection. */
    method HoldVisualization(kind: GizmoKind, node: NodeId, scene: SceneId)
      requires Valid() && visualization.None?
      modifies this
      ensures Valid() && visualization == Some(|old(gizmos.refs)|) && manager == old(manager)
      ensures (gizmos, layers) == AcquireGizmo(old(gizmos), old(layers), (kind, node), scene)
      ensures gizmos.refs[visualization.value] == Ref((kind, node), gizmos.table[(kind, node)].gizmo, false)
      ensures gizmoMode == old(gizmoMode) && coordinatesMode == old(coordinatesMode)
      ensures modeNotifications == old(modeNotifications) && coordinatesNotifications == old(coordinatesNotifications)
    {
      AcquireGizmoEffect(gizmos, layers, (kind, node), scene);
      var h := GetGizmo(kind, node, scene);
      visualization := Some(h);
    }

    /**
     * syncGizmoManager: the held visualization gizmo is released; without a
     * manager nothing else happens; otherwise the selection is resolved
     * (through a camera or light gizmo, or a bone's transform node, when a
     * mode is set), and exactly the flag of the resolved mode is enabled.
     */
    method Sync(selected: Option<Selected>)
      requires Valid()
      modifies this
      ensures Valid()
      ensures gizmoMode == old(gizmoMode) && coordinatesMode == old(coordinatesMode)
      ensures modeNotifications == old(modeNotifications) && coordinatesNotifications == old(coordinatesNotifications)
      ensures manager.Some? <==> old(manager).Some?
      ensures manager.Some? ==>
        var entity := Resolved(gizmoMode, selected);
        var mode := ResolveMode(gizmoMode, entity);
        manager.value.enabled == EnabledFor(mode)
        && manager.value.attached == AttachFor(mode, entity, old(manager).value.attached)
        && manager.value.coordinatesMode == old(manager).value.coordinatesMode
      ensures visualization.Some? <==>
        (manager.Some? && gizmoMode.Some? && selected.Some?
         && (selected.value.kind.CameraSelection? || selected.value.kind.LightSelection?))
      ensures old(visualization).Some? ==>
        old(visualization).value < |gizmos.refs| && gizmos.refs[old(visualization).value].disposed
      ensures visualization.Some? ==>
        var k := HeldKey(gizmoMode, selected).value.0;
        k in gizmos.table && gizmos.refs[visualization.value] == Ref(k, gizmos.table[k].gizmo, false)
      ensures (gizmos, layers) == SyncRegistries(old(gizmos), old(layers), old(visualization), old(manager).Some?, gizmoMode, selected)
      ensures visualization == SyncHeld(old(gizmos), old(manager).Some?, gizmoMode, selected)
      ensures manager == SyncManager(old(manager), gizmoMode, selected)
    {
      DropVisualization();
      if manager.None? {
        return;
      }
      HoldForSelection(selected);
      ApplyMode(selected);
    }

    /** With a mode set, a selected camera or light has its visualization gizmo taken and held. */
    method HoldForSelection(selected: Option<Selected>)
      requires Valid() && visualization.None?
      modifies this
      ensures Valid() && manager == old(manager)
      ensures gizmoMode == old(gizmoMode) && coordinatesMode == old(coordinatesMode)
      ensures modeNotifications == old(modeNotifications) && coordinatesNotifications == old(coordinatesNotifications)
      ensures visualization.Some? <==>
        (gizmoMode.Some? && selected.Some?
         && (selected.value.kind.CameraSelection? || selected.value.kind.LightSelection?))
      ensures (gizmos, layers) == TakeHeld(old(gizmos), old(layers), gizmoMode, selected)
      ensures visualization == (if HeldKey(gizmoMode, selected).Some? then Some(|old(gizmos.refs)|) else None)
    {
      if gizmoMode.Some? && selected.Some? {
        match selected.value.kind {
          case CameraSelection(camera, scene, _) =>
            HoldVisualization(CameraGizmo, camera, scene);
          case LightSelection(light, scene, _) =>
            HoldVisualization(LightGizmo, light, scene);
          case _ =>
        }
      }
    }

    /** The manager's flags and attachment follow the mode resolved for the selection. */
    method ApplyMode(selected: Option<Selected>)
      requires Valid() && manager.Some?
      modifies this
      ensures Valid() && layers == old(layers) && gizmos == old(gizmos) && visualization == old(visualization)
      ensures gizmoMode == old(gizmoMode) && coordinatesMode == old(coordinatesMode)
      ensures modeNotifications == old(modeNotifications) && coordinatesNotifications == old(coordinatesNotifications)
      ensures var entity := Resolved(gizmoMode, selected);
        var mode := ResolveMode(gizmoMode, entity);
        manager == Some(old(manager).value.(enabled := EnabledFor(mode), attached := AttachFor(mode, entity, old(manager).value.attached)))
    {
      var entity := Resolved(gizmoMode, selected);
      var mode := ResolveMode(gizmoMode, entity);
      var m := manager.value;
      manager := Some(m.(enabled := EnabledFor(mode), attached := AttachFor(mode, entity, m.attached)));
    }

    /** The gizmoMode setter: a different mode is stored, announced, and applied; the same mode changes nothing. */
    method SetGizmoMode(mode: Option<GizmoMode>, selected: Option<Selected>)
      requires Valid()
      modifies this
      ensures Valid() && gizmoMode == mode && coordinatesMode == old(coordinatesMode)
      ensures mode == old(gizmoMode) ==>
        modeNotifications == old(modeNotifications) && manager == old(manager)
        && layers == old(layers) && gizmos == old(gizmos) && visualization == old(visualization)
      ensures mode != old(gizmoMode) ==>
        modeNotifications == old(modeNotifications) + 1
        && (manager.Some? ==> manager.value.enabled == EnabledFor(ResolveMode(mode, Resolved(mode, selected))))
        && manager == SyncManager(old(manager), mode, selected)
        && (gizmos, layers) == SyncRegistries(old(gizmos), old(layers), old(visualization), old(manager).Some?, mode, selected)
        && visualization == SyncHeld(old(gizmos), old(manager).Some?, mode, selected)
    {
      if mode != gizmoMode {
        gizmoMode := mode;
        modeNotifications := modeNotifications + 1;
        Sync(selected);
      }
    }

    /** The coordinatesMode setter: a different mode is stored, passed to the manager, and announced. */
    method SetCoordinatesMode(mode: CoordinatesMode)
      requires Valid()
      modifies this
      ensures Valid() && coordinatesMode == mode
      ensures mode == old(coordinatesMode) ==> coordinatesNotifications == old(coordinatesNotifications) && manager == old(manager)
      ensures mode != old(coordinatesMode) ==>
        coordinatesNotifications == old(coordinatesNotifications) + 1
        && manager == (if old(manager).Some? then Some(old(manager).value.(coordinatesMode := mode)) else None)
      ensures gizmoMode == old(gizmoMode) && modeNotifications == old(modeNotifications)
      ensures layers == old(layers) && gizmos == old(gizmos) && visualization == old(visualization)
    {
      if mode != coordinatesMode {
        coordinatesMode := mode;
        if manager.Some? {
          manager := Some(manager.value.(coordinatesMode := mode));
        }
        coordinatesNotifications := coordinatesNotifications + 1;
      }
    }

    /**
     * The interception of the manager's own coordinatesMode setter: the
     * manager takes the value, and a value different from the service's is
     * stored and announced.
     */
    method ManagerCoordinatesSet(value: CoordinatesMode)
      requires Valid() && manager.Some?
      modifies this
      ensures Valid() && coordinatesMode == value
      ensures manager == Some(old(manager).value.(coordinatesMode := value))
      ensures coordinatesNotifications == old(coordinatesNotifications) + (if value != old(coordinatesMode) then 1 else 0)
      ensures gizmoMode == old(gizmoMode) && modeNotifications == old(modeNotifications)
      ensures layers == old(layers) && gizmos == old(gizmos) && visualization == old(visualization)
    {
      manager := Some(manager.value.(coordinatesMode := value));
      if value != coordinatesMode {
        coordinatesMode := value;
        coordinatesNotifications := coordinatesNotifications + 1;
      }
    }

    /** The service's dispose(): the manager is destroyed (the observers' removal is not modelled). */
    method Dispose()
      requires Valid()
      modifies this
      ensures Valid() && manager.None? && visualization.None?
      ensures gizmoMode == old(gizmoMode) && coordinatesMode == old(coordinatesMode)
      ensures (gizmos, layers) == DestroyRegistries(old(gizmos), old(layers), old(visualization), old(manager))
      ensures old(visualization).Some? ==>
        old(visualization).value < |gizmos.refs| && gizmos.refs[old(visualization).value].disposed
      ensures modeNotifications == old(modeNotifications) && coordinatesNotifications == old(coordinatesNotifications)
    {
      DestroyManager();
    }

    /**
     * destroyGizmoManager: the visualization gizmo is released, and the
     * manager, detached, gives back both of its layer references.
     */
    method DestroyManager()
      requires Valid()
      modifies this
      ensures Valid() && manager.None? && visualization.None?
      ensures |layers.refs| == |old(layers.refs)|
      ensures old(manager).Some? ==>
        layers.refs[old(manager).value.layerRef].disposed && layers.refs[old(manager).value.keepDepthRef].disposed
      ensures old(visualization).Some? ==>
        old(visualization).value < |gizmos.refs| && gizmos.refs[old(visualization).value].disposed
      ensures (gizmos, layers) == DestroyRegistries(old(gizmos), old(layers), old(visualization), old(manager))
      ensures gizmoMode == old(gizmoMode) && coordinatesMode == old(coordinatesMode)
      ensures modeNotifications == old(modeNotifications) && coordinatesNotifications == old(coordinatesNotifications)
    {
      DropVisualization();
      if manager.Some? {
        ReleaseManager();
      }
    }

    /** The manager's dispose(): both of its layer references are disposed and the manager dropped. */
    method ReleaseManager()
      requires Valid() && manager.Some?
      modifies this
      ensures Valid() && manager.None? && gizmos == old(gizmos) && visualization == old(visualization)
      ensures layers == ReleaseLayer(ReleaseLayer(old(layers), old(manager).value.layerRef), old(manager).value.keepDepthRef)
      ensures layers.refs[old(manager).value.layerRef].disposed && layers.refs[old(manager).value.keepDepthRef].disposed
      ensures gizmoMode == old(gizmoMode) && coordinatesMode == old(coordinatesMode)
      ensures modeNotifications == old(modeNotifications) && coordinatesNotifications == old(coordinatesNotifications)
    {
      var m := manager.value;
      DisposeLayerRef(m.layerRef);
      DisposeLayerRef(m.keepDepthRef);
      manager := None;
    }

    /**
     * createGizmoManager(scene): any previous manager is destroyed, then a
     * new one takes references to the scene's default and keepDepth layers
     * and starts with the service's coordinates mode.
     */
    method CreateManager(scene: SceneId)
      requires Valid()
      modifies this
      ensures Valid() && manager.Some? && visualization.None?
      ensures manager.value.coordinatesMode == coordinatesMode
      ensures layers.refs[manager.value.layerRef].key == (scene, DefaultLayer) && !layers.refs[manager.value.layerRef].disposed
      ensures layers.refs[manager.value.keepDepthRef].key == (scene, KeepDepthLayer) && !layers.refs[manager.value.keepDepthRef].disposed
      ensures manager == Some(Manager(Enabled(false, false, false, false), coordinatesMode, Detached,
                                      |old(layers.refs)|, |old(layers.refs)| + 1))
      ensures var d := DestroyRegistries(old(gizmos), old(layers), old(visualization), old(manager));
        gizmos == d.0 && layers == AcquireLayer(AcquireLayer(d.1, scene, DefaultLayer), scene, KeepDepthLayer)
      ensures old(manager).Some? ==>
        layers.refs[old(manager).value.layerRef].disposed && layers.refs[old(manager).value.keepDepthRef].disposed
      ensures gizmoMode == old(gizmoMode) && coordinatesMode == old(coordinatesMode)
      ensures modeNotifications == old(modeNotifications) && coordinatesNotifications == old(coordinatesNotifications)
    {
      DestroyManager();
      InstallManager(scene);
    }

    /** A new manager with references to the scene's default and keepDepth layers. */
    method InstallManager(scene: SceneId)
      requires Valid() && visualization.None?
      modifies this
      ensures Valid() && manager.Some? && visualization.None?
      ensures manager.value == Manager(Enabled(false, false, false, false), coordinatesMode, Detached,
                                       |old(layers.refs)|, |old(layers.refs)| + 1)
      ensures layers == AcquireLayer(AcquireLayer(old(layers), scene, DefaultLayer), scene, KeepDepthLayer)
      ensures gizmos == old(gizmos)
      ensures gizmoMode == old(gizmoMode) && coordinatesMode == old(coordinatesMode)
      ensures modeNotifications == old(modeNotifications) && coordinatesNotifications == old(coordinatesNotifications)
    {
      var r1 := GetUtilityLayer(scene, DefaultLayer);
      var r2 := GetUtilityLayer(scene, KeepDepthLayer);
      manager := Some(Manager(Enabled(false, false, false, false), coordinatesMode, Detached, r1, r2));
    }

    /** The scene observer: the manager is rebuilt for the new scene, if any, and synchronised. */
    method SceneChanged(scene: Option<SceneId>, selected: Option<Selected>)
      requires Valid()
      modifies this
      ensures Valid() && (manager.Some? <==> scene.Some?)
      ensures gizmoMode == old(gizmoMode) && coordinatesMode == old(coordinatesMode)
      ensures modeNotifications == old(modeNotifications) && coordinatesNotifications == old(coordinatesNotifications)
      ensures scene.None? ==>
        visualization.None? && (gizmos, layers) == DestroyRegistries(old(gizmos), old(layers), old(visualization), old(manager))
      ensures scene.Some? ==>
        var d := DestroyRegistries(old(gizmos), old(layers), old(visualization), old(manager));
        var l1 := AcquireLayer(AcquireLayer(d.1, scene.value, DefaultLayer), scene.value, KeepDepthLayer);
        var start := Manager(Enabled(false, false, false, false), coordinatesMode, Detached,
                             |old(layers.refs)|, |old(layers.refs)| + 1);
        manager == SyncManager(Some(start), gizmoMode, selected)
        && (gizmos, layers) == TakeHeld(d.0, l1, gizmoMode, selected)
        && visualization == SyncHeld(d.0, true, gizmoMode, selected)
    {
      DestroyManager();
      if scene.Some? {
        ActivateScene(scene.value, selected);
      }
    }

    /**
     * A manager created for the scene and synchronised, with none before:
     * the scene observer's second step, and the service's start-up when a
     * scene is already active.
     */
    method ActivateScene(scene: SceneId, selected: Option<Selected>)
      requires Valid() && manager.None? && visualization.None?
      modifies this
      ensures Valid()
      ensures gizmoMode == old(gizmoMode) && coordinatesMode == old(coordinatesMode)
      ensures modeNotifications == old(modeNotifications) && coordinatesNotifications == old(coordinatesNotifications)
      ensures var l1 := AcquireLayer(AcquireLayer(old(layers), scene, DefaultLayer), scene, KeepDepthLayer);
        var start := Manager(Enabled(false, false, false, false), coordinatesMode, Detached,
                             |old(layers.refs)|, |old(layers.refs)| + 1);
        manager == SyncManager(Some(start), gizmoMode, selected)
        && (gizmos, layers) == TakeHeld(old(gizmos), l1, gizmoMode, selected)
        && visualization == SyncHeld(old(gizmos), true, gizmoMode, selected)
    {
      CreateManager(scene);
      ghost var g1, l1 := gizmos, layers;
      Sync(selected);
      assert (gizmos, layers) == TakeHeld(g1, l1, gizmoMode, selected);
    }
  }

  /**
   * The entity the gizmo acts on: with a mode set, a camera or light
   * resolves to the node its gizmo is attached to and a bone to its
   * transform node (else itself); otherwise the selection itself.
   */
  function Resolved(mode: Option<GizmoMode>, selected: Option<Selected>): (r: Option<Target>)
    ensures selected.None? ==> r.None?
    ensures mode.None? && selected.Some? ==> r == Some(selected.value.self)
  {
    if selected.None? then None
    else if mode.None? then Some(selected.value.self)
    else
      match selected.value.kind
      case CameraSelection(_, _, attached) => attached
      case LightSelection(_, _, attached) => attached
      case BoneSelection(node) => if node.Some? then node else Some(selected.value.self)
      case OtherSelection => Some(selected.value.self)
  }
}
