/**
 * ThreeMfSerializer: turns Babylon meshes and instances into a 3MF
 * document. Babylon's meshes are seen through what the exporter reads from
 * them: a name, flattened positions and indices, the submesh index ranges,
 * and for an instance its source mesh and world transform.
 */
module BjsSerializer {
  import opened Wrappers
  import opened JsRuntime
  import opened ThreeMfInterfaces
  import opened ThreeMfModel
  import opened ThreeMfUtils
  import opened ThreeMfOpc
  import opened ThreeMfBuilder

  // ---------------------------------------------------------------------
  // First-occurrence order

  /** The distinct elements among the first `n` of `s`, in the order they first occur. */
  function FirstOccurrences<T(==)>(s: seq<T>, n: nat): (u: seq<T>)
    requires n <= |s|
    ensures |u| <= n
  {
    if n == 0 then []
    else
      var u := FirstOccurrences(s, n - 1);
      if s[n - 1] in u then u else u + [s[n - 1]]
  }

  /** The distinct elements of `s`, in the order they first occur. */
  function Uniq<T(==)>(s: seq<T>): seq<T> {
    FirstOccurrences(s, |s|)
  }

  /** First occurrences depend only on the prefix read so far. */
  lemma {:induction false} FirstOccurrencesPrefix<T>(s: seq<T>, t: seq<T>, n: nat)
    requires n <= |s| && n <= |t| && forall i :: 0 <= i < n ==> s[i] == t[i]
    ensures FirstOccurrences(s, n) == FirstOccurrences(t, n)
  {
    if n > 0 {
      FirstOccurrencesPrefix(s, t, n - 1);
    }
  }

  /** One more element extends the first-occurrence order only when it is new. */
  lemma UniqSnoc<T>(s: seq<T>, x: T)
    ensures Uniq(s + [x]) == if x in Uniq(s) then Uniq(s) else Uniq(s) + [x]
  {
    FirstOccurrencesPrefix(s + [x], s, |s|);
  }

  predicate Distinct<T(==)>(s: seq<T>) {
    forall i, j :: 0 <= i < j < |s| ==> s[i] != s[j]
  }

  /** First occurrences keep every element once: the same members as the prefix, no repeats. */
  lemma {:induction false} FirstOccurrencesProps<T>(s: seq<T>, n: nat)
    requires n <= |s|
    ensures forall x :: x in FirstOccurrences(s, n) <==> x in s[..n]
    ensures Distinct(FirstOccurrences(s, n))
  {
    if n > 0 {
      FirstOccurrencesProps(s, n - 1);
      assert s[..n] == s[..n - 1] + [s[n - 1]];
    }
  }

  /** Uniq keeps every element once: the same members as `s`, no repeats. */
  lemma UniqProps<T>(s: seq<T>)
    ensures forall x :: x in Uniq(s) <==> x in s
    ensures Distinct(Uniq(s))
  {
    FirstOccurrencesProps(s, |s|);
    assert s[..|s|] == s;
  }

  // ---------------------------------------------------------------------
  // _extractSubMesh

  /** A submesh: a range of the mesh's index list. */
  datatype SubMesh = SubMesh(id: nat, indexStart: nat, indexCount: nat)

  /** What Babylon guarantees of a submesh: its range lies in the index list and each index names a whole position triple. */
  predicate SubMeshInRange(allInd: seq<int>, allPos: seq<real>, sm: SubMesh) {
    sm.indexStart + sm.indexCount <= |allInd|
    && forall i :: sm.indexStart <= i < sm.indexStart + sm.indexCount ==> 0 <= allInd[i] && 3 * allInd[i] + 2 < |allPos|
  }

  /** The index window a submesh covers. */
  function Window(allInd: seq<int>, sm: SubMesh): seq<int>
    requires sm.indexStart + sm.indexCount <= |allInd|
  {
    allInd[sm.indexStart..sm.indexStart + sm.indexCount]
  }

  /** Every vertex number in `vs` names a whole triple of `allPos`. */
  predicate VerticesIn(allPos: seq<real>, vs: seq<int>) {
    forall k :: 0 <= k < |vs| ==> 0 <= vs[k] && 3 * vs[k] + 2 < |allPos|
  }

  /** The position triples of the first `n` vertices of `vs`, one after the other. */
  function GatherN(allPos: seq<real>, vs: seq<int>, n: nat): (pos: seq<real>)
    requires VerticesIn(allPos, vs) && n <= |vs|
    ensures |pos| == 3 * n
  {
    if n == 0 then []
    else
      var v := vs[n - 1];
      GatherN(allPos, vs, n - 1) + [allPos[3 * v], allPos[3 * v + 1], allPos[3 * v + 2]]
  }

  /** The position triples of vertices `vs`, one after the other. */
  function Gather(allPos: seq<real>, vs: seq<int>): (pos: seq<real>)
    requires VerticesIn(allPos, vs)
    ensures |pos| == 3 * |vs|
  {
    GatherN(allPos, vs, |vs|)
  }

  /** A gather depends only on the vertices read so far. */
  lemma {:induction false} GatherNPrefix(allPos: seq<real>, vs: seq<int>, ts: seq<int>, n: nat)
    requires VerticesIn(allPos, vs) && VerticesIn(allPos, ts) && n <= |vs| && n <= |ts|
    requires forall i :: 0 <= i < n ==> vs[i] == ts[i]
    ensures GatherN(allPos, vs, n) == GatherN(allPos, ts, n)
  {
    if n > 0 {
      GatherNPrefix(allPos, vs, ts, n - 1);
    }
  }

  /** The k-th triple of a gather is the triple of the k-th vertex. */
  lemma {:induction false} GatherNAt(allPos: seq<real>, vs: seq<int>, n: nat, k: nat)
    requires VerticesIn(allPos, vs) && k < n <= |vs|
    ensures GatherN(allPos, vs, n)[3 * k..3 * k + 3] == allPos[3 * vs[k]..3 * vs[k] + 3]
  {
    if k < n - 1 {
      GatherNAt(allPos, vs, n - 1, k);
      assert GatherN(allPos, vs, n)[3 * k..3 * k + 3] == GatherN(allPos, vs, n - 1)[3 * k..3 * k + 3];
    }
  }

  /** The k-th triple of a gather is the triple of the k-th vertex. */
  lemma GatherAt(allPos: seq<real>, vs: seq<int>, k: nat)
    requires VerticesIn(allPos, vs) && k < |vs|
    ensures Gather(allPos, vs)[3 * k..3 * k + 3] == allPos[3 * vs[k]..3 * vs[k] + 3]
  {
    GatherNAt(allPos, vs, |vs|, k);
  }

  /** Gathering one more vertex appends its triple. */
  lemma GatherSnoc(allPos: seq<real>, vs: seq<int>, v: int)
    requires VerticesIn(allPos, vs) && 0 <= v && 3 * v + 2 < |allPos|
    ensures VerticesIn(allPos, vs + [v])
    ensures Gather(allPos, vs + [v]) == Gather(allPos, vs) + [allPos[3 * v], allPos[3 * v + 1], allPos[3 * v + 2]]
  {
    GatherNPrefix(allPos, vs + [v], vs, |vs|);
  }

  /**
   * `pos`/`ind` are the compaction of window `w` over `allPos`: the k-th
   * vertex first used in `w` becomes vertex k, carrying its position triple,
   * and every index of `w` is rewritten to its vertex's new number.
   */
  ghost predicate Compaction(allPos: seq<real>, w: seq<int>, pos: seq<real>, ind: seq<int>) {
    var u := Uniq(w);
    VerticesIn(allPos, u) && pos == Gather(allPos, u) && |ind| == |w|
    && (forall i :: 0 <= i < |ind| ==> 0 <= ind[i] < |u| && u[ind[i]] == w[i])
  }

  /** A compaction keeps every corner where it was: index i names the same position before and after. */
  lemma CompactionKeepsCorners(allPos: seq<real>, w: seq<int>, pos: seq<real>, ind: seq<int>, i: nat)
    requires Compaction(allPos, w, pos, ind) && i < |w|
    ensures 0 <= ind[i] && 3 * ind[i] + 2 < |pos| && 0 <= w[i] && 3 * w[i] + 2 < |allPos|
    ensures pos[3 * ind[i]..3 * ind[i] + 3] == allPos[3 * w[i]..3 * w[i] + 3]
  {
    var u := Uniq(w);
    var k := ind[i];
    assert u[k] == w[i];
    GatherAt(allPos, u, k);
  }

  /** A compaction has no unused vertex and no vertex twice: its vertices are the window's distinct indices. */
  lemma CompactionIsTight(allPos: seq<real>, w: seq<int>, pos: seq<real>, ind: seq<int>)
    requires Compaction(allPos, w, pos, ind)
    ensures |pos| / 3 <= |w|
    ensures forall k :: 0 <= k < |pos| / 3 ==> k in ind
  {
    var u := Uniq(w);
    UniqProps(w);
    forall k | 0 <= k < |pos| / 3
      ensures k in ind
    {
      assert u[k] in w;
      var i :| 0 <= i < |w| && w[i] == u[k];
      assert u[ind[i]] == u[k];
      assert ind[i] == k;
    }
  }

  /** `remap` numbers the vertices of `u` by their position in it (the old-to-new table of _extractSubMesh). */
  ghost predicate Numbers(remap: map<int, nat>, u: seq<int>) {
    |remap| == |u|
    && (forall k :: 0 <= k < |u| ==> u[k] in remap && remap[u[k]] == k)
    && (forall v :: v in remap ==> remap[v] < |u| && u[remap[v]] == v)
  }

  /** A known vertex keeps its number; a new one is numbered next. */
  lemma NumbersStep(remap: map<int, nat>, u: seq<int>, v: int)
    requires Numbers(remap, u)
    ensures v in remap ==> v in u && remap[v] < |u| && u[remap[v]] == v
    ensures v !in remap ==> v !in u && Numbers(remap[v := |u|], u + [v])
  {
    if v !in remap {
      assert forall k :: 0 <= k < |u| ==> u[k] != v;
      var u' := u + [v];
      var m' := remap[v := |u|];
      forall k | 0 <= k < |u'|
        ensures u'[k] in m' && m'[u'[k]] == k
      {
        if k < |u| {
          assert u'[k] == u[k] && u[k] != v;
        }
      }
    }
  }

  /**
   * _extractSubMesh: nothing without indices or positions; the mesh's own
   * data when the submesh covers all indices; otherwise the compaction of the
   * submesh's window.
   */
  method ExtractSubMesh(allInd: Option<seq<int>>, allPos: Option<seq<real>>, sm: SubMesh) returns (r: Option<VertexData>)
    requires allInd.Some? && allPos.Some? ==> SubMeshInRange(allInd.value, allPos.value, sm)
    ensures r.None? <==> allInd.None? || allPos.None?
    ensures r.Some? ==> r.value.positions.Some? && r.value.indices.Some? && r.value.normals.None? && r.value.colors.None?
    ensures r.Some? && sm.indexStart == 0 && sm.indexCount == |allInd.value| ==>
      r.value.positions == allPos && r.value.indices == allInd
    ensures r.Some? && !(sm.indexStart == 0 && sm.indexCount == |allInd.value|) ==>
      Compaction(allPos.value, Window(allInd.value, sm), r.value.positions.value, r.value.indices.value)
  {
    if allInd.None? || allPos.None? {
      return None;
    }
    if sm.indexStart == 0 && sm.indexCount == |allInd.value| {
      return Some(VertexData(allPos, allInd, None, None));
    }
    var pos, ind := CompactWindow(Window(allInd.value, sm), allPos.value);
    return Some(VertexData(Some(pos), Some(ind), None, None));
  }

  /** After `i` steps of _extractSubMesh's loop: `u` are the vertices met so far, numbered by `remap`, with their triples gathered in `pos`. */
  ghost predicate Scanned(w: seq<int>, ap: seq<real>, i: nat, u: seq<int>, remap: map<int, nat>, pos: seq<real>) {
    i <= |w| && u == FirstOccurrences(w, i) && Numbers(remap, u) && VerticesIn(ap, u) && pos == Gather(ap, u)
  }

  /** One step of the loop: a vertex already met keeps its number; a new one is numbered next and its triple pushed. */
  lemma ScanStep(w: seq<int>, ap: seq<real>, i: nat, u: seq<int>, remap: map<int, nat>, pos: seq<real>)
    requires VerticesIn(ap, w) && Scanned(w, ap, i, u, remap, pos) && i < |w|
    ensures w[i] in remap ==>
      Scanned(w, ap, i + 1, u, remap, pos) && remap[w[i]] < |u| && u[remap[w[i]]] == w[i]
    ensures w[i] !in remap ==>
      |remap| == |u|
      && Scanned(w, ap, i + 1, u + [w[i]], remap[w[i] := |u|],
                 pos + [ap[3 * w[i]], ap[3 * w[i] + 1], ap[3 * w[i] + 2]])
  {
    NumbersStep(remap, u, w[i]);
    if w[i] !in remap {
      GatherSnoc(ap, u, w[i]);
    }
  }

  /** The indices before `i` are rewritten to their vertices' numbers in `u`. */
  ghost predicate Rewritten(w: seq<int>, u: seq<int>, ind: array<int>, i: nat)
    reads ind
  {
    i <= |w| && i <= ind.Length && forall j :: 0 <= j < i ==> 0 <= ind[j] < |u| && u[ind[j]] == w[j]
  }

  /** The body of _extractSubMesh's loop: number index `i` of the window, pushing the triple of a vertex met for the first time. */
  method ScanIndex(w: seq<int>, ap: seq<real>, i: nat, remap: map<int, nat>, newPositions: seq<real>,
                   newIndices: array<int>, ghost u: seq<int>)
    returns (remap': map<int, nat>, newPositions': seq<real>, ghost u': seq<int>)
    requires VerticesIn(ap, w) && i < |w| == newIndices.Length
    requires Scanned(w, ap, i, u, remap, newPositions) && Rewritten(w, u, newIndices, i)
    modifies newIndices
    ensures Scanned(w, ap, i + 1, u', remap', newPositions') && Rewritten(w, u', newIndices, i + 1)
  {
    var oldVi := w[i];
    ScanStep(w, ap, i, u, remap, newPositions);
    var newVi: nat;
    if oldVi in remap {
      newVi := remap[oldVi];
      remap', newPositions', u' := remap, newPositions, u;
    } else {
      newVi := |remap|;
      remap' := remap[oldVi := newVi];
      var p := oldVi * 3;
      newPositions' := newPositions + [ap[p], ap[p + 1], ap[p + 2]];
      u' := u + [oldVi];
    }
    assert forall n :: 0 <= n < |u| ==> u'[n] == u[n];
    ghost var prev := newIndices[..];
    newIndices[i] := newVi;
    forall j | 0 <= j <= i
      ensures 0 <= newIndices[j] < |u'| && u'[newIndices[j]] == w[j]
    {
      if j < i {
        assert newIndices[j] == prev[j] && prev[j] < |u|;
      }
    }
  }

  /** The loop of _extractSubMesh over the submesh's window `w` of the index list. */
  method CompactWindow(w: seq<int>, ap: seq<real>) returns (pos: seq<real>, ind: seq<int>)
    requires VerticesIn(ap, w)
    ensures Compaction(ap, w, pos, ind)
  {
    var remap: map<int, nat> := map[];
    var newPositions: seq<real> := [];
    var newIndices := new int[|w|];
    ghost var u: seq<int> := [];
    var i := 0;
    while i < |w|
      invariant Scanned(w, ap, i, u, remap, newPositions) && Rewritten(w, u, newIndices, i)
    {
      remap, newPositions, u := ScanIndex(w, ap, i, remap, newPositions, newIndices, u);
      i := i + 1;
    }
    pos, ind := newPositions, newIndices[..];
  }

  // ---------------------------------------------------------------------
  // _groupBy

  /** The position of the group with key `k`, or -1 (Map.prototype.get). */
  function GroupIndex<T, K(==)>(g: seq<(K, seq<T>)>, k: K): (r: int)
    ensures -1 <= r < |g|
    ensures r >= 0 ==> g[r].0 == k
    ensures r == -1 ==> forall i :: 0 <= i < |g| ==> g[i].0 != k
  {
    if g == [] then -1 else if g[|g| - 1].0 == k then |g| - 1 else GroupIndex(g[..|g| - 1], k)
  }

  /** The groups of `items` by `key`, in the insertion order of a JavaScript Map. */
  function Groups<T, K(==)>(items: seq<T>, key: T -> K): seq<(K, seq<T>)> {
    if items == [] then []
    else
      var g := Groups(items[..|items| - 1], key);
      var x := items[|items| - 1];
      var j := GroupIndex(g, key(x));
      if j >= 0 then g[j := (g[j].0, g[j].1 + [x])] else g + [(key(x), [x])]
  }

  function Keys<T, K>(g: seq<(K, seq<T>)>): (r: seq<K>)
    ensures |r| == |g| && forall i :: 0 <= i < |g| ==> r[i] == g[i].0
  {
    if g == [] then [] else Keys(g[..|g| - 1]) + [g[|g| - 1].0]
  }

  function MapSeq<T, K>(s: seq<T>, f: T -> K): (r: seq<K>)
    ensures |r| == |s| && forall i :: 0 <= i < |s| ==> r[i] == f(s[i])
  {
    if s == [] then [] else MapSeq(s[..|s| - 1], f) + [f(s[|s| - 1])]
  }

  /** The items with key `k`, in order. */
  function WithKey<T, K(==)>(s: seq<T>, key: T -> K, k: K): seq<T> {
    if s == [] then []
    else WithKey(s[..|s| - 1], key, k) + (if key(s[|s| - 1]) == k then [s[|s| - 1]] else [])
  }

  /** Keys of a group list, read after replacing the items of one group or appending a group. */
  lemma KeysUpdate<T, K>(g: seq<(K, seq<T>)>, j: nat, items: seq<T>, k: K)
    requires j < |g|
    ensures Keys(g[j := (g[j].0, items)]) == Keys(g)
    ensures Keys(g + [(k, items)]) == Keys(g) + [k]
  {
    assert Keys(g[j := (g[j].0, items)]) == Keys(g);
    assert Keys(g + [(k, items)]) == Keys(g) + [k];
  }

  /** _groupBy's groups come in order of the first occurrence of their key, each key once. */
  lemma {:induction false} GroupsKeys<T, K>(items: seq<T>, key: T -> K)
    ensures Keys(Groups(items, key)) == Uniq(MapSeq(items, key))
    decreases |items|
  {
    if items != [] {
      var init := items[..|items| - 1];
      var x := items[|items| - 1];
      var g := Groups(init, key);
      GroupsKeys(init, key);
      assert MapSeq(items, key) == MapSeq(init, key) + [key(x)];
      UniqSnoc(MapSeq(init, key), key(x));
      var j := GroupIndex(g, key(x));
      if j >= 0 {
        assert key(x) == Keys(g)[j];
        KeysUpdate(g, j, g[j].1 + [x], key(x));
      } else {
        assert key(x) !in Keys(g);
        assert Keys(g + [(key(x), [x])]) == Keys(g) + [key(x)];
      }
    }
  }

  /**
   * _groupBy's result: each group holds exactly the items with its key, in
   * their original order; with GroupsKeys, every item is in exactly one group.
   */
  lemma {:induction false} GroupsMembers<T, K>(items: seq<T>, key: T -> K)
    ensures forall i :: 0 <= i < |Groups(items, key)| ==>
      Groups(items, key)[i].1 == WithKey(items, key, Groups(items, key)[i].0)
    decreases |items|
  {
    if items != [] {
      var init := items[..|items| - 1];
      var x := items[|items| - 1];
      var g := Groups(init, key);
      GroupsMembers(init, key);
      GroupsKeys(init, key);
      UniqProps(MapSeq(init, key));
      var gs := Groups(items, key);
      var j := GroupIndex(g, key(x));
      forall i | 0 <= i < |gs|
        ensures gs[i].1 == WithKey(items, key, gs[i].0)
      {
        var k := gs[i].0;
        assert WithKey(items, key, k) == WithKey(init, key, k) + (if key(x) == k then [x] else []);
        if j >= 0 {
          if i != j {
            assert Keys(g)[i] != Keys(g)[j];
          }
        } else if i == |g| {
          WithKeyAbsent(init, key, k);
        }
      }
    }
  }

  lemma {:induction false} WithKeyAbsent<T, K>(s: seq<T>, key: T -> K, k: K)
    requires k !in Uniq(MapSeq(s, key))
    ensures WithKey(s, key, k) == []
    decreases |s|
  {
    if s != [] {
      var init := s[..|s| - 1];
      UniqProps(MapSeq(s, key));
      assert MapSeq(s, key)[..|s| - 1] == MapSeq(init, key);
      UniqProps(MapSeq(init, key));
      assert key(s[|s| - 1]) in MapSeq(s, key);
      WithKeyAbsent(init, key, k);
    }
  }

  /** _groupBy: one pass over the items, appending each to the group of its key. */
  method GroupBy<T, K(==)>(items: seq<T>, key: T -> K) returns (groups: seq<(K, seq<T>)>)
    ensures groups == Groups(items, key)
  {
    groups := [];
    var i := 0;
    while i < |items|
      invariant 0 <= i <= |items| && groups == Groups(items[..i], key)
    {
      var it := items[i];
      var k := key(it);
      var j := GroupIndex(groups, k);
      if j >= 0 {
        groups := groups[j := (groups[j].0, groups[j].1 + [it])];
      } else {
        groups := groups + [(k, [it])];
      }
      assert items[..i + 1][..i] == items[..i];
      i := i + 1;
    }
    assert items[..i] == items;
  }

  // ---------------------------------------------------------------------
  // Axis conventions

  /** _handleBjsTo3mfVertexTransform: a quarter turn about X, (x, y, z) to (x, -z, y). */
  function AxisSwap(v: Vertex): (r: Vertex)
    ensures r.x == v.x && r.y == -v.z && r.z == v.y
  {
    Vertex(v.x, -v.z, v.y)
  }

  /** The swap keeps distances to the origin, and four swaps are no swap at all. */
  lemma AxisSwapIsRotation(v: Vertex)
    ensures var r := AxisSwap(v);
      r.x * r.x + r.y * r.y + r.z * r.z == v.x * v.x + v.y * v.y + v.z * v.z
    ensures AxisSwap(AxisSwap(AxisSwap(AxisSwap(v)))) == v
  {
  }

  /**
   * _handleBjsTo3mfMatrixTransformToRef, the reordering: `a` is the Babylon
   * storage of the transposed product of the fixed X rotation and the world
   * matrix; the 3MF values are its entries 0, 4, 8, 1, 5, 9, 2, 6, 10, 3, 7, 11.
   */
  function ReorderTo3mf(a: seq<real>): (m: Matrix3D)
    requires |a| == 16
    ensures forall r, c :: 0 <= r < 4 && 0 <= c < 3 ==> m[3 * r + c] == a[4 * c + r]
  {
    [a[0], a[4], a[8], a[1], a[5], a[9], a[2], a[6], a[10], a[3], a[7], a[11]]
  }

  // ---------------------------------------------------------------------
  // toDocument

  /** A Babylon mesh as the exporter reads it; `id` stands for the mesh object's identity. */
  datatype MeshData = MeshData(id: nat, name: string, positions: Option<seq<real>>, indices: Option<seq<int>>,
                               subMeshes: seq<SubMesh>)

  /**
   * An instance: its source mesh and its world transform, given as the
   * Babylon storage of the transposed product of the X rotation and the world
   * matrix (the floating-point product itself is not modelled).
   */
  datatype Instance = Instance(source: MeshData, world: seq<real>)

  /** An element of the exported list: a mesh or an instance of one. */
  datatype SceneMesh = PlainMesh(mesh: MeshData) | InstanceMesh(instance: Instance)

  /** The serializer options toDocument reads. */
  datatype ExportOptions = ExportOptions(exportInstances: bool, exportSubmeshes: bool)

  /** The keys of toDocument's index: a mesh or a submesh, by identity. */
  datatype IndexKey = OfMesh(meshId: nat) | OfSubMesh(subMeshId: nat)

  /** What Babylon guarantees of a mesh: whole index triples, submeshes of whole triples inside the index list. */
  predicate MeshWellFormed(m: MeshData) {
    (m.indices.Some? ==> |m.indices.value| % 3 == 0)
    && forall k :: 0 <= k < |m.subMeshes| ==>
         m.subMeshes[k].indexCount % 3 == 0
         && (m.indices.Some? && m.positions.Some? ==> SubMeshInRange(m.indices.value, m.positions.value, m.subMeshes[k]))
  }

  predicate SceneWellFormed(meshes: seq<SceneMesh>) {
    forall j :: 0 <= j < |meshes| ==>
      match meshes[j]
      case PlainMesh(m) => MeshWellFormed(m)
      case InstanceMesh(inst) => |inst.world| == 16
  }

  /** The grouping key of the second pass. */
  function Source(i: Instance): MeshData {
    i.source
  }

  /** Whether a mesh is split into one object per submesh. */
  predicate SplitsSubMeshes(m: MeshData, opts: ExportOptions) {
    opts.exportSubmeshes && |m.subMeshes| > 0
  }

  /** How many mesh objects the first pass makes for one element. */
  function MeshObjectsOf(e: SceneMesh, opts: ExportOptions): nat {
    match e
    case InstanceMesh(_) => 0
    case PlainMesh(m) =>
      if SplitsSubMeshes(m, opts) then (if m.positions.Some? && m.indices.Some? then |m.subMeshes| else 0) else 1
  }

  /** How many mesh objects the first pass makes for the first `n` elements. */
  function MeshObjectCount(meshes: seq<SceneMesh>, opts: ExportOptions, n: nat): nat
    requires n <= |meshes|
  {
    if n == 0 then 0 else MeshObjectCount(meshes, opts, n - 1) + MeshObjectsOf(meshes[n - 1], opts)
  }

  /** The instances among the first `n` elements, in order. */
  function InstancesOf(meshes: seq<SceneMesh>, n: nat): seq<Instance>
    requires n <= |meshes|
  {
    if n == 0 then []
    else InstancesOf(meshes, n - 1) + (if meshes[n - 1].InstanceMesh? then [meshes[n - 1].instance] else [])
  }

  /** The instances the second pass groups: none unless instances are exported. */
  function ExportedInstances(meshes: seq<SceneMesh>, opts: ExportOptions): seq<Instance> {
    if opts.exportInstances then InstancesOf(meshes, |meshes|) else []
  }

  /** The object resources of a model. */
  function Objects(m: Model): seq<Object> {
    ResourcesOr(m).objects
  }

  predicate IsMeshObject(o: Object) {
    o.content.Some? && o.content.value.MeshContent?
  }

  /** A components object whose components all refer to one of the first `n` objects. */
  predicate ComponentsBelow(o: Object, n: nat) {
    o.content.Some? && o.content.value.ComponentsContent?
    && forall c :: c in o.content.value.components ==> 0 <= c.objectid < n
  }

  /** Object k has id k: the default id factory counts from 0 and every id it gives is used by one object. */
  predicate IdsArePositions(objs: seq<Object>) {
    forall k :: 0 <= k < |objs| ==> objs[k].id == k
  }

  /** Every index entry is a mesh object among the first `n`, stored at its id. */
  predicate Indexed(objs: seq<Object>, index: map<IndexKey, Object>, n: nat) {
    forall key :: key in index ==>
      0 <= index[key].id < n <= |objs| && objs[index[key].id] == index[key] && IsMeshObject(index[key])
  }

  /** The default id factory, as toDocument creates it. */
  ghost predicate Counting(f: IncrementalIdFactory)
    reads f
  {
    f.Valid() && f.from == 0 && f.step == 1 && f.to == MinSafeInteger
  }

  /**
   * One mesh object: `new ThreeMfMeshBuilder(idFactory.next())` with the
   * axis swap as vertex handler, the data and the name, added to the model.
   */
  method AddMeshObject(f: IncrementalIdFactory, mb: ModelBuilder, data: VertexData, name: string) returns (o: Object)
    requires Counting(f) && f.i == |Objects(mb.model)|
    requires data.indices.Some? ==> |data.indices.value| % 3 == 0
    modifies f, mb
    ensures Counting(f) && f.i == |Objects(mb.model)|
    ensures Objects(mb.model) == Objects(old(mb.model)) + [o] && mb.model.build == old(mb.model.build) && mb.model.unit == old(mb.model.unit)
    ensures o.id == old(f.i) && IsMeshObject(o) && o.name == Some(name)
    ensures var p := data.positions.GetOr([]);
      forall k :: 0 <= k < |o.content.value.mesh.vertices| ==> o.content.value.mesh.vertices[k] == AxisSwap(VertexAt(p, k))
  {
    DefaultNeverRefuses(|f.issued|);
    var id := f.Next();
    var b := new ObjectBuilder.Mesh(id.value);
    var _ := b.WithPostProcessHandlers(AxisSwap, None);
    var _ := b.WithData(data);
    var _ := b.WithName(name);
    o := b.Build();
    var _ := mb.WithObject(o);
  }

  /** The first pass over one mesh split by submeshes: an object per submesh that yields data, named `<name>_<k>`. */
  method AddSubMeshObjects(m: MeshData, objectName: string, f: IncrementalIdFactory, mb: ModelBuilder,
                           index: map<IndexKey, Object>)
    returns (index': map<IndexKey, Object>)
    requires MeshWellFormed(m) && Counting(f) && f.i == |Objects(mb.model)|
    requires Indexed(Objects(mb.model), index, |Objects(mb.model)|)
    modifies f, mb
    ensures Counting(f) && f.i == |Objects(mb.model)| && mb.model.build == old(mb.model.build) && mb.model.unit == old(mb.model.unit)
    ensures Objects(old(mb.model)) <= Objects(mb.model)
    ensures |Objects(mb.model)| == |Objects(old(mb.model))| + (if m.positions.Some? && m.indices.Some? then |m.subMeshes| else 0)
    ensures forall k :: |Objects(old(mb.model))| <= k < |Objects(mb.model)| ==>
      Objects(mb.model)[k].id == k && IsMeshObject(Objects(mb.model)[k]) && Objects(mb.model)[k].name.Some?
    ensures Indexed(Objects(mb.model), index', |Objects(mb.model)|)
  {
    ghost var objs0 := Objects(mb.model);
    index' := index;
    var k := 0;
    while k < |m.subMeshes|
      invariant 0 <= k <= |m.subMeshes|
      invariant Counting(f) && f.i == |Objects(mb.model)| && mb.model.build == old(mb.model.build) && mb.model.unit == old(mb.model.unit)
      invariant objs0 <= Objects(mb.model)
      invariant |Objects(mb.model)| == |objs0| + (if m.positions.Some? && m.indices.Some? then k else 0)
      invariant forall n :: |objs0| <= n < |Objects(mb.model)| ==>
        Objects(mb.model)[n].id == n && IsMeshObject(Objects(mb.model)[n]) && Objects(mb.model)[n].name.Some?
      invariant Indexed(Objects(mb.model), index', |Objects(mb.model)|)
    {
      var subMesh := m.subMeshes[k];
      var data := ExtractSubMesh(m.indices, m.positions, subMesh);
      if data.Some? {
        ghost var before := Objects(mb.model);
        var o := AddMeshObject(f, mb, data.value, objectName + "_" + NatToString(k));
        index' := index'[OfSubMesh(subMesh.id) := o];
      }
      k := k + 1;
    }
  }

  /** The name toDocument gives the object of element j: the mesh name, or `mesh<j>` when that is empty. */
  function ObjectName(m: MeshData, j: nat): (s: string)
    ensures |s| > 0
    ensures m.name != "" ==> s == m.name
    ensures m.name == "" ==> |s| > 4 && s[..4] == "mesh" && s[4..] == NatToString(j)
  {
    if m.name != "" then m.name else "mesh" + NatToString(j)
  }

  /** The first pass over one element: an instance is set aside, a mesh becomes its object or submesh objects. */
  method AddMesh(e: SceneMesh, j: nat, opts: ExportOptions, f: IncrementalIdFactory, mb: ModelBuilder,
                 index: map<IndexKey, Object>)
    returns (index': map<IndexKey, Object>)
    requires e.PlainMesh? ==> MeshWellFormed(e.mesh)
    requires Counting(f) && f.i == |Objects(mb.model)|
    requires Indexed(Objects(mb.model), index, |Objects(mb.model)|)
    modifies f, mb
    ensures Counting(f) && f.i == |Objects(mb.model)| && mb.model.build == old(mb.model.build) && mb.model.unit == old(mb.model.unit)
    ensures Objects(old(mb.model)) <= Objects(mb.model)
    ensures |Objects(mb.model)| == |Objects(old(mb.model))| + MeshObjectsOf(e, opts)
    ensures forall k :: |Objects(old(mb.model))| <= k < |Objects(mb.model)| ==>
      Objects(mb.model)[k].id == k && IsMeshObject(Objects(mb.model)[k]) && Objects(mb.model)[k].name.Some?
    ensures Indexed(Objects(mb.model), index', |Objects(mb.model)|)
  {
    index' := index;
    if e.InstanceMesh? {
      return;
    }
    var m := e.mesh;
    var objectName := ObjectName(m, j);
    if SplitsSubMeshes(m, opts) {
      index' := AddSubMeshObjects(m, objectName, f, mb, index);
    } else {
      var data := VertexData(Some(m.positions.GetOr([])), Some(m.indices.GetOr([])), None, None);
      var o := AddMeshObject(f, mb, data, objectName);
      index' := index[OfMesh(m.id) := o];
    }
  }

  /**
   * toDocument's first pass: every mesh, in order, becomes mesh objects with
   * ids 0, 1, 2, ... and an index entry; instances are collected when exported.
   */
  method AddMeshes(meshes: seq<SceneMesh>, opts: ExportOptions, f: IncrementalIdFactory, mb: ModelBuilder)
    returns (index: map<IndexKey, Object>, instances: seq<Instance>)
    requires SceneWellFormed(meshes) && Counting(f) && f.i == 0 && Objects(mb.model) == [] && mb.model.build.None?
    modifies f, mb
    ensures Counting(f) && f.i == |Objects(mb.model)| && mb.model.build.None? && mb.model.unit == old(mb.model.unit)
    ensures |Objects(mb.model)| == MeshObjectCount(meshes, opts, |meshes|)
    ensures forall k :: 0 <= k < |Objects(mb.model)| ==>
      Objects(mb.model)[k].id == k && IsMeshObject(Objects(mb.model)[k]) && Objects(mb.model)[k].name.Some?
    ensures Indexed(Objects(mb.model), index, |Objects(mb.model)|)
    ensures instances == ExportedInstances(meshes, opts)
  {
    index := map[];
    instances := [];
    var j := 0;
    while j < |meshes|
      invariant 0 <= j <= |meshes|
      invariant Counting(f) && f.i == |Objects(mb.model)| && mb.model.build.None? && mb.model.unit == old(mb.model.unit)
      invariant |Objects(mb.model)| == MeshObjectCount(meshes, opts, j)
      invariant forall k :: 0 <= k < |Objects(mb.model)| ==>
        Objects(mb.model)[k].id == k && IsMeshObject(Objects(mb.model)[k]) && Objects(mb.model)[k].name.Some?
      invariant Indexed(Objects(mb.model), index, |Objects(mb.model)|)
      invariant instances == if opts.exportInstances then InstancesOf(meshes, j) else []
    {
      if meshes[j].InstanceMesh? && opts.exportInstances {
        instances := instances + [meshes[j].instance];
      }
      index := AddMesh(meshes[j], j, opts, f, mb, index);
      j := j + 1;
    }
  }

  /** `id` is the id of some object in the index. */
  predicate Refers(index: map<IndexKey, Object>, id: int) {
    exists key :: key in index && index[key].id == id
  }

  /** The components an instance adds for the first `n` submeshes of its source: one per indexed submesh, in order. */
  function SubMeshComponents(sms: seq<SubMesh>, index: map<IndexKey, Object>, t: Matrix3D, n: nat): (cs: seq<Component>)
    requires n <= |sms|
    ensures |cs| <= n
    ensures forall c :: c in cs ==> c.transform == Some(t) && Refers(index, c.objectid)
  {
    if n == 0 then []
    else
      var key := OfSubMesh(sms[n - 1].id);
      SubMeshComponents(sms, index, t, n - 1) + (if key in index then [NewComponent(index[key].id, Some(t))] else [])
  }

  /**
   * The components one instance of `src` adds: one per indexed submesh when
   * submeshes are split, otherwise one for the mesh when it is indexed; each
   * carries the instance's reordered world transform.
   */
  function InstanceComponents(src: MeshData, inst: Instance, opts: ExportOptions, index: map<IndexKey, Object>)
    : (cs: seq<Component>)
    requires |inst.world| == 16
    ensures forall c :: c in cs ==> c.transform == Some(ReorderTo3mf(inst.world)) && Refers(index, c.objectid)
    ensures !SplitsSubMeshes(src, opts) ==> |cs| == (if OfMesh(src.id) in index then 1 else 0)
    ensures SplitsSubMeshes(src, opts) ==> |cs| <= |src.subMeshes|
  {
    var t := ReorderTo3mf(inst.world);
    if SplitsSubMeshes(src, opts) then SubMeshComponents(src.subMeshes, index, t, |src.subMeshes|)
    else if OfMesh(src.id) in index then [NewComponent(index[OfMesh(src.id)].id, Some(t))]
    else []
  }

  /** Every instance world is a 4x4 matrix. */
  predicate Worlds(insts: seq<Instance>) {
    forall i :: 0 <= i < |insts| ==> |insts[i].world| == 16
  }

  /** The components of the group of `src`, for its first `n` instances. */
  function GroupComponents(src: MeshData, insts: seq<Instance>, opts: ExportOptions, index: map<IndexKey, Object>,
                           n: nat): (cs: seq<Component>)
    requires n <= |insts| && Worlds(insts)
    ensures forall c :: c in cs ==>
      Refers(index, c.objectid) && exists i :: 0 <= i < n && c.transform == Some(ReorderTo3mf(insts[i].world))
  {
    if n == 0 then []
    else
      var cs := GroupComponents(src, insts, opts, index, n - 1) + InstanceComponents(src, insts[n - 1], opts, index);
      assert forall c :: c in InstanceComponents(src, insts[n - 1], opts, index) ==>
        c.transform == Some(ReorderTo3mf(insts[n - 1].world));
      cs
  }

  /** The components object toDocument builds for one group: a model-type object with id `id`. */
  function GroupObject(id: int, src: MeshData, insts: seq<Instance>, opts: ExportOptions,
                       index: map<IndexKey, Object>): (o: Object)
    requires Worlds(insts)
    ensures o.id == id && o.kind == Some(ModelType) && o.name.None?
    ensures o.content == Some(ComponentsContent(GroupComponents(src, insts, opts, index, |insts|)))
  {
    NewObject(id, ModelType).(content := Some(ComponentsContent(GroupComponents(src, insts, opts, index, |insts|))))
  }

  /** The objects from position `base` on are the group objects of `groups`, in order, and nothing else. */
  predicate GroupObjectsFrom(objs: seq<Object>, base: nat, groups: seq<(MeshData, seq<Instance>)>,
                             opts: ExportOptions, index: map<IndexKey, Object>) {
    |objs| == base + |groups|
    && forall g :: 0 <= g < |groups| ==>
         Worlds(groups[g].1) && objs[base + g] == GroupObject(base + g, groups[g].0, groups[g].1, opts, index)
  }

  /** One instance's components, added to the group's builder. */
  method AddInstanceComponents(cb: ObjectBuilder, src: MeshData, inst: Instance, opts: ExportOptions,
                               index: map<IndexKey, Object>)
    requires |inst.world| == 16
    requires cb.obj.content.Some? && cb.obj.content.value.ComponentsContent?
    modifies cb
    ensures cb.obj == old(cb.obj).(content := Some(ComponentsContent(
      old(cb.obj.content.value.components) + InstanceComponents(src, inst, opts, index))))
  {
    var t := ReorderTo3mf(inst.world);
    if SplitsSubMeshes(src, opts) {
      var k := 0;
      assert old(cb.obj.content.value.components) + [] == old(cb.obj.content.value.components);
      while k < |src.subMeshes|
        invariant 0 <= k <= |src.subMeshes|
        invariant cb.obj == old(cb.obj).(content := Some(ComponentsContent(
          old(cb.obj.content.value.components) + SubMeshComponents(src.subMeshes, index, t, k))))
      {
        var key := OfSubMesh(src.subMeshes[k].id);
        ghost var before := old(cb.obj.content.value.components) + SubMeshComponents(src.subMeshes, index, t, k);
        if key in index {
          var _ := cb.WithComponent(index[key].id, Some(t));
          assert before + [NewComponent(index[key].id, Some(t))]
            == old(cb.obj.content.value.components) + SubMeshComponents(src.subMeshes, index, t, k + 1);
        } else {
          assert before == old(cb.obj.content.value.components) + SubMeshComponents(src.subMeshes, index, t, k + 1);
        }
        k := k + 1;
      }
      return;
    }
    if OfMesh(src.id) in index {
      var _ := cb.WithComponent(index[OfMesh(src.id)].id, Some(t));
    } else {
      assert old(cb.obj.content.value.components) + [] == old(cb.obj.content.value.components);
    }
  }

  /** One group: a fresh components object holding every instance's components, added to the model. */
  method AddGroupObject(f: IncrementalIdFactory, mb: ModelBuilder, src: MeshData, insts: seq<Instance>,
                        opts: ExportOptions, index: map<IndexKey, Object>)
    requires Worlds(insts) && Counting(f) && f.i == |Objects(mb.model)|
    modifies f, mb
    ensures Counting(f) && f.i == |Objects(mb.model)| && mb.model.build == old(mb.model.build) && mb.model.unit == old(mb.model.unit)
    ensures Objects(mb.model) == Objects(old(mb.model)) + [GroupObject(old(f.i), src, insts, opts, index)]
  {
    DefaultNeverRefuses(|f.issued|);
    var id := f.Next();
    var cb := new ObjectBuilder.Components(id.value, ModelType);
    var j := 0;
    while j < |insts|
      modifies cb
      invariant 0 <= j <= |insts|
      invariant cb.obj == NewObject(id.value, ModelType).(content := Some(ComponentsContent(
        GroupComponents(src, insts, opts, index, j))))
    {
      AddInstanceComponents(cb, src, insts[j], opts, index);
      assert GroupComponents(src, insts, opts, index, j + 1)
        == GroupComponents(src, insts, opts, index, j) + InstanceComponents(src, insts[j], opts, index);
      j := j + 1;
    }
    assert cb.obj == GroupObject(id.value, src, insts, opts, index);
    var o := cb.Build();
    var _ := mb.WithObject(o);
  }

  /** Grouping keeps a property of every item, and no group is empty. */
  lemma {:induction false} GroupsKeep<T, K>(items: seq<T>, key: T -> K, P: T -> bool)
    requires forall i :: 0 <= i < |items| ==> P(items[i])
    ensures forall g :: 0 <= g < |Groups(items, key)| ==>
      |Groups(items, key)[g].1| > 0 && forall i :: 0 <= i < |Groups(items, key)[g].1| ==> P(Groups(items, key)[g].1[i])
    decreases |items|
  {
    if items != [] {
      var init := items[..|items| - 1];
      var x := items[|items| - 1];
      GroupsKeep(init, key, P);
      var g := Groups(init, key);
      var j := GroupIndex(g, key(x));
      var gs := Groups(items, key);
      assert P(x);
      forall h | 0 <= h < |gs|
        ensures |gs[h].1| > 0 && forall i :: 0 <= i < |gs[h].1| ==> P(gs[h].1[i])
      {
        if h < |g| && h != j {
          assert gs[h] == g[h];
        } else if h == j {
          assert gs[h].1 == g[h].1 + [x];
        } else {
          assert gs[h].1 == [x];
        }
      }
    }
  }

  /** Every collected instance has a 4x4 world matrix. */
  lemma {:induction false} InstancesWorlds(meshes: seq<SceneMesh>, n: nat)
    requires n <= |meshes| && SceneWellFormed(meshes)
    ensures Worlds(InstancesOf(meshes, n))
  {
    if n > 0 {
      InstancesWorlds(meshes, n - 1);
    }
  }

  /** The second pass: one components object per group, in group order. */
  method AddGroups(groups: seq<(MeshData, seq<Instance>)>, opts: ExportOptions, f: IncrementalIdFactory,
                   mb: ModelBuilder, index: map<IndexKey, Object>)
    requires forall g :: 0 <= g < |groups| ==> |groups[g].1| > 0 && Worlds(groups[g].1)
    requires Counting(f) && f.i == |Objects(mb.model)|
    modifies f, mb
    ensures Counting(f) && f.i == |Objects(mb.model)| && mb.model.build == old(mb.model.build) && mb.model.unit == old(mb.model.unit)
    ensures Objects(old(mb.model)) <= Objects(mb.model)
    ensures GroupObjectsFrom(Objects(mb.model), |Objects(old(mb.model))|, groups, opts, index)
  {
    ghost var objs0 := Objects(mb.model);
    var g := 0;
    while g < |groups|
      invariant 0 <= g <= |groups|
      invariant Counting(f) && f.i == |Objects(mb.model)| && mb.model.build == old(mb.model.build) && mb.model.unit == old(mb.model.unit)
      invariant objs0 <= Objects(mb.model) && |Objects(mb.model)| == |objs0| + g
      invariant forall h :: 0 <= h < g ==>
        Objects(mb.model)[|objs0| + h] == GroupObject(|objs0| + h, groups[h].0, groups[h].1, opts, index)
    {
      var (src, insts) := groups[g];
      if |insts| > 0 {
        AddGroupObject(f, mb, src, insts, opts, index);
      }
      g := g + 1;
    }
  }

  /** A group object refers only to indexed objects, which are among the first `n`. */
  lemma GroupObjectBelow(objs: seq<Object>, index: map<IndexKey, Object>, n: nat, id: int, src: MeshData,
                         insts: seq<Instance>, opts: ExportOptions)
    requires Indexed(objs, index, n) && Worlds(insts)
    ensures ComponentsBelow(GroupObject(id, src, insts, opts, index), n)
  {
    var cs := GroupComponents(src, insts, opts, index, |insts|);
    forall c | c in cs
      ensures 0 <= c.objectid < n
    {
      var key :| key in index && index[key].id == c.objectid;
    }
  }

  /**
   * The second pass as a whole: when there are instances, they are grouped
   * by source mesh and each group becomes one components object.
   */
  method AddInstances(instances: seq<Instance>, opts: ExportOptions, f: IncrementalIdFactory, mb: ModelBuilder,
                      index: map<IndexKey, Object>)
    requires Worlds(instances) && Counting(f) && f.i == |Objects(mb.model)|
    modifies f, mb
    ensures Counting(f) && f.i == |Objects(mb.model)| && mb.model.build == old(mb.model.build) && mb.model.unit == old(mb.model.unit)
    ensures Objects(old(mb.model)) <= Objects(mb.model)
    ensures GroupObjectsFrom(Objects(mb.model), |Objects(old(mb.model))|, Groups(instances, Source), opts, index)
  {
    GroupsKeep(instances, Source, (i: Instance) => |i.world| == 16);
    if |instances| > 0 {
      var grouped := GroupBy(instances, Source);
      AddGroups(grouped, opts, f, mb, index);
    }
  }

  /** Appending objects keeps the index entries where they are. */
  lemma IndexedPrefix(objs: seq<Object>, objs': seq<Object>, index: map<IndexKey, Object>, n: nat)
    requires Indexed(objs, index, n) && objs <= objs'
    ensures Indexed(objs', index, n)
  {
    forall key | key in index
      ensures objs'[index[key].id] == index[key]
    {
      assert objs'[index[key].id] == objs[index[key].id];
    }
  }

  /** Every group object after the mesh objects refers only to mesh objects. */
  lemma GroupObjectsBelow(objs: seq<Object>, index: map<IndexKey, Object>, nMesh: nat,
                          groups: seq<(MeshData, seq<Instance>)>, opts: ExportOptions)
    requires Indexed(objs, index, nMesh) && GroupObjectsFrom(objs, nMesh, groups, opts, index)
    ensures forall k :: nMesh <= k < |objs| ==> ComponentsBelow(objs[k], nMesh)
  {
    forall k | nMesh <= k < |objs|
      ensures ComponentsBelow(objs[k], nMesh)
    {
      var g := k - nMesh;
      GroupObjectBelow(objs, index, nMesh, k, groups[g].0, groups[g].1, opts);
    }
  }

  /** Group objects take the ids that follow the mesh objects'. */
  lemma GroupObjectIds(objs: seq<Object>, objs': seq<Object>, index: map<IndexKey, Object>,
                       groups: seq<(MeshData, seq<Instance>)>, opts: ExportOptions)
    requires IdsArePositions(objs) && objs <= objs' && GroupObjectsFrom(objs', |objs|, groups, opts, index)
    ensures IdsArePositions(objs')
  {
    forall k | 0 <= k < |objs'|
      ensures objs'[k].id == k
    {
      if k < |objs| {
        assert objs'[k] == objs[k];
      } else {
        var g := k - |objs|;
        assert objs'[k] == GroupObject(k, groups[g].0, groups[g].1, opts, index);
      }
    }
  }

  /**
   * toDocument up to the document builder: the mesh objects first, with ids
   * 0 .. nMesh - 1, then one components object per distinct instanced mesh,
   * in order of first appearance; no build item is ever added.
   */
  method BuildResources(meshes: seq<SceneMesh>, opts: ExportOptions)
    returns (mb: ModelBuilder, ghost nMesh: nat, ghost index: map<IndexKey, Object>)
    requires SceneWellFormed(meshes)
    ensures fresh(mb)
    ensures mb.model.build.None? && mb.model.unit == Some(Millimeter)
    ensures nMesh == MeshObjectCount(meshes, opts, |meshes|)
    ensures |Objects(mb.model)| == nMesh + |Uniq(MapSeq(ExportedInstances(meshes, opts), Source))|
    ensures IdsArePositions(Objects(mb.model))
    ensures forall k :: 0 <= k < nMesh ==> IsMeshObject(Objects(mb.model)[k]) && Objects(mb.model)[k].name.Some?
    ensures Indexed(Objects(mb.model), index, nMesh)
    ensures forall k :: nMesh <= k < |Objects(mb.model)| ==> ComponentsBelow(Objects(mb.model)[k], nMesh)
    ensures GroupObjectsFrom(Objects(mb.model), nMesh, Groups(ExportedInstances(meshes, opts), Source), opts, index)
  {
    var f := new IncrementalIdFactory.Default();
    mb := new ModelBuilder();
    var objectIndex, instances := AddMeshes(meshes, opts, f, mb);
    index := objectIndex;
    nMesh := |Objects(mb.model)|;
    ghost var objs1 := Objects(mb.model);
    InstancesWorlds(meshes, |meshes|);
    AddInstances(instances, opts, f, mb, objectIndex);
    GroupsKeys(instances, Source);
    IndexedPrefix(objs1, Objects(mb.model), index, nMesh);
    ghost var groups := Groups(instances, Source);
    GroupObjectsBelow(Objects(mb.model), index, nMesh, groups, opts);
    GroupObjectIds(objs1, Objects(mb.model), index, groups, opts);
  }

  /** `new ThreeMfDocumentBuilder().withModel(modelBuilder).build()`. */
  method FinishDocument(mb: ModelBuilder) returns (r: Result<Document>)
    ensures r.Ok? <==> Buildable(mb.model)
    ensures r.Ok? ==>
      r.value.model == mb.model && r.value.relationships.items == [DefaultRelationship]
      && ModelPartContentType in r.value.contentTypes.items && RelsContentType in r.value.contentTypes.items
    ensures r.Ok? ==> r.value.contentTypes.items == [ModelPartContentType, RelsContentType]
  {
    var doc := new DocumentBuilder();
    var ok := doc.WithModelBuilder(mb);
    if ok.Err? {
      return Err(ok.error);
    }
    r := doc.Build();
  }

  /**
   * toDocument as written: no build item is ever added, so the model
   * builder refuses and the document is never produced, whatever the meshes.
   */
  method ToDocument(meshes: seq<SceneMesh>, opts: ExportOptions) returns (r: Result<Document>)
    requires SceneWellFormed(meshes)
    ensures r.Err?
  {
    var mb, nMesh, index := BuildResources(meshes, opts);
    r := FinishDocument(mb);
  }

  /** withBuild for every object resource, in order, with no transform and no part number. */
  method AddBuildItems(mb: ModelBuilder)
    requires mb.model.build.None?
    modifies mb
    ensures mb.model.resources == old(mb.model.resources) && mb.model.unit == old(mb.model.unit)
    ensures |Objects(mb.model)| > 0 ==> mb.model.build.Some?
    ensures var items := mb.model.build.GetOr(Build([])).items;
      |items| == |Objects(mb.model)|
      && forall k :: 0 <= k < |items| ==> items[k] == NewItem(Objects(mb.model)[k].id, None, None)
  {
    var objs := Objects(mb.model);
    var k := 0;
    while k < |objs|
      invariant 0 <= k <= |objs|
      invariant mb.model.resources == old(mb.model.resources) && mb.model.unit == old(mb.model.unit)
      invariant k > 0 ==> mb.model.build.Some?
      invariant var items := mb.model.build.GetOr(Build([])).items;
        |items| == k && forall n :: 0 <= n < k ==> items[n] == NewItem(objs[n].id, None, None)
    {
      var _ := mb.WithBuild(objs[k].id, None, None);
      k := k + 1;
    }
  }

  /**
   * toDocument with a build item per object: every exported mesh and
   * instance group is printed, and the document exists exactly when there is
   * at least one object.
   */
  method ToDocumentWithBuild(meshes: seq<SceneMesh>, opts: ExportOptions) returns (r: Result<Document>)
    requires SceneWellFormed(meshes)
    ensures r.Ok? <==> MeshObjectCount(meshes, opts, |meshes|) + |Uniq(MapSeq(ExportedInstances(meshes, opts), Source))| > 0
    ensures r.Ok? ==>
      var objs := Objects(r.value.model);
      r.value.model.build.Some?
      && var items := r.value.model.build.value.items;
      r.value.model.unit == Some(Millimeter)
      && |objs| == MeshObjectCount(meshes, opts, |meshes|) + |Uniq(MapSeq(ExportedInstances(meshes, opts), Source))|
      && IdsArePositions(objs)
      && |items| == |objs| && (forall k :: 0 <= k < |items| ==> items[k].objectid == k && items[k].transform.None?)
      && r.value.relationships.items == [DefaultRelationship]
  {
    var mb, nMesh, index := BuildResources(meshes, opts);
    AddBuildItems(mb);
    r := FinishDocument(mb);
  }
}
