/**
 * The fluent builders that assemble a 3MF document: objects (plain, mesh
 * and components), base materials, the model and the OPC document.
 *
 * ThreeMfComponentsBuilder and ThreeMfMeshBuilder extend
 * ThreeMfObjectBuilder; here the three share the class ObjectBuilder, and
 * the constructor used decides which of them an instance is.
 */
module ThreeMfBuilder {
  import opened Wrappers
  import opened JsRuntime
  import opened ThreeMfInterfaces
  import opened ThreeMfModel
  import opened ThreeMfOpc

  // ---------------------------------------------------------------------
  // Mesh data to vertices and triangles

  /** A coordinate read past the end of the positions is `undefined`, which the vertex constructor defaults to 0. */
  function Coord(p: seq<real>, i: nat): real {
    if i < |p| then p[i] else 0.0
  }

  /** The k-th vertex of flattened positions: one per consecutive x, y, z triple. */
  function VertexAt(p: seq<real>, k: nat): Vertex {
    Vertex(Coord(p, 3 * k), Coord(p, 3 * k + 1), Coord(p, 3 * k + 2))
  }

  /** The post-process handler, when there is one. */
  function Handle<T>(h: Option<T -> T>, x: T): T {
    if h.Some? then h.value(x) else x
  }

  /** The number of vertices read from `n` positions: the loop steps by three until it passes the end. */
  function VertexCount(n: nat): nat {
    (n + 2) / 3
  }

  /** Three indices make one triangle. */
  function TriangleAt(idx: seq<int>, k: nat): Triangle
    requires 3 * k + 2 < |idx|
  {
    NewTriangle(idx[3 * k], idx[3 * k + 1], idx[3 * k + 2])
  }

  // ---------------------------------------------------------------------
  // Base colours

  /** The builder's colour channel: gamma-encoded by `gamma` (Math.pow(c, 1/2.2)), scaled, clamped, then rounded. */
  function SrgbByte(c: real, gamma: real -> real): (b: int)
    ensures 0 <= b <= 255
  {
    var x := gamma(c) * 255.0;
    Round(if x < 0.0 then 0.0 else if x > 255.0 then 255.0 else x)
  }

  /** The builder's alpha: always a fraction of 255, clamped, then rounded. */
  function BuilderAlphaByte(a: real): (b: int)
    ensures 0 <= b <= 255
  {
    var x := a * 255.0;
    Round(if x < 0.0 then 0.0 else if x > 255.0 then 255.0 else x)
  }

  /** ThreeMfMaterialBuilder._rgbaToHex. */
  function BuilderColorHex(c: RgbaColor, gamma: real -> real): (s: string)
    ensures |s| == (if c.a.Some? then 9 else 7) && s[0] == '#'
  {
    var rgb := "#" + Hex2(SrgbByte(c.r, gamma)) + Hex2(SrgbByte(c.g, gamma)) + Hex2(SrgbByte(c.b, gamma));
    if c.a.Some? then rgb + Hex2(BuilderAlphaByte(c.a.value)) else rgb
  }

  /**
   * The two colour encoders read alpha differently: a fraction in [0, 1]
   * gives the same byte in both, but RgbaToHex takes an alpha above 1 as a
   * byte while the material builder scales it and saturates at 255.
   */
  lemma AlphaConventions(a: real)
    ensures 0.0 <= a <= 1.0 ==> BuilderAlphaByte(a) == AlphaByte(a)
    ensures 1.0 < a ==> BuilderAlphaByte(a) == 255
    ensures 1.0 < a <= 254.0 ==> AlphaByte(a) < 255
  {
    if 0.0 <= a <= 1.0 {
      assert 0.0 <= a * 255.0 <= 255.0;
    } else if 1.0 < a {
      assert a * 255.0 > 255.0;
      assert Round(255.0) == 255;
    }
  }

  /** The position of the first base whose name equals `name` ignoring case (Array.prototype.find). */
  function FindBase(bases: seq<Base>, name: string): (r: Option<nat>)
    ensures r.Some? ==> r.value < |bases| && ToLower(bases[r.value].name) == ToLower(name)
    ensures r.Some? ==> forall i :: 0 <= i < r.value ==> ToLower(bases[i].name) != ToLower(name)
    ensures r.None? ==> forall i :: 0 <= i < |bases| ==> ToLower(bases[i].name) != ToLower(name)
  {
    if bases == [] then None
    else if ToLower(bases[0].name) == ToLower(name) then Some(0)
    else
      var t := FindBase(bases[1..], name);
      if t.Some? then Some(t.value + 1) else None
  }

  /** A colour named with non-ASCII capitals finds the base named in lower case, so withColor overwrites it. */
  lemma FindBaseLatinCase(hex: string, hex': string)
    ensures FindBase([Base("gr\U{00FC}n", hex)], "GR\U{00DC}N") == Some(0)
    ensures UpsertColor([Base("gr\U{00FC}n", hex)], "GR\U{00DC}N", hex') == [Base("gr\U{00FC}n", hex')]
  {
    assert ToLower("GR\U{00DC}N") == "gr\U{00FC}n";
    assert ToLower("gr\U{00FC}n") == "gr\U{00FC}n";
  }

  /** Base names are unique ignoring case. */
  predicate UniqueNames(bases: seq<Base>) {
    forall i, j :: 0 <= i < j < |bases| ==> ToLower(bases[i].name) != ToLower(bases[j].name)
  }

  /** withColor on the list of bases: a base of the same name (ignoring case) gets the colour, otherwise a new base is appended. */
  function UpsertColor(bases: seq<Base>, name: string, hex: string): (r: seq<Base>)
    ensures UniqueNames(bases) ==> UniqueNames(r)
    ensures FindBase(bases, name).Some? ==> |r| == |bases|
    ensures FindBase(bases, name).None? ==> r == bases + [Base(name, hex)]
  {
    var k := FindBase(bases, name);
    if k.Some? then bases[k.value := Base(bases[k.value].name, hex)] else bases + [Base(name, hex)]
  }

  /** After withColor exactly one base carries the name, and it has the new colour; every other base is untouched. */
  lemma UpsertColorSets(bases: seq<Base>, name: string, hex: string)
    requires UniqueNames(bases)
    ensures var r := UpsertColor(bases, name, hex);
      exists k :: 0 <= k < |r| && ToLower(r[k].name) == ToLower(name) && r[k].displaycolor == hex
        && forall i :: 0 <= i < |r| && i != k ==> ToLower(r[i].name) != ToLower(name) && r[i] in bases
  {
    var r := UpsertColor(bases, name, hex);
    var f := FindBase(bases, name);
    if f.Some? {
      var k := f.value;
      assert ToLower(r[k].name) == ToLower(name) && r[k].displaycolor == hex;
      forall i | 0 <= i < |r| && i != k
        ensures ToLower(r[i].name) != ToLower(name) && r[i] in bases
      {
        assert r[i] == bases[i];
      }
    } else {
      var k := |bases|;
      assert ToLower(r[k].name) == ToLower(name) && r[k].displaycolor == hex;
      forall i | 0 <= i < |r| && i != k
        ensures ToLower(r[i].name) != ToLower(name) && r[i] in bases
      {
        assert r[i] == bases[i];
      }
    }
  }

  // ---------------------------------------------------------------------
  // Document parts

  /** withContentType on the list: appended unless an entry with the same extension and content type is there. */
  function AddContentType(items: seq<ContentType>, t: ContentType): (r: seq<ContentType>)
    ensures t in r && forall x :: x in items ==> x in r
    ensures forall x :: x in r ==> x in items || x == t
    ensures t in items ==> r == items
    ensures t !in items ==> r == items + [t]
  {
    if t in items then items else items + [t]
  }

  /** No content type is listed twice. */
  predicate DistinctContentTypes(items: seq<ContentType>) {
    forall i, j :: 0 <= i < j < |items| ==> items[i] != items[j]
  }

  lemma AddContentTypeDistinct(items: seq<ContentType>, t: ContentType)
    requires DistinctContentTypes(items)
    ensures DistinctContentTypes(AddContentType(items, t))
  {
  }

  predicate HasRelId(items: seq<Relationship>, id: string) {
    exists x :: x in items && x.id == id
  }

  /** withRelationship on the list: appended unless a relationship with the same id is there. */
  function AddRelationship(items: seq<Relationship>, rel: Relationship): (r: seq<Relationship>)
    ensures HasRelId(items, rel.id) ==> r == items
    ensures !HasRelId(items, rel.id) ==> r == items + [rel]
  {
    if HasRelId(items, rel.id) then items else items + [rel]
  }

  /** Relationship ids are unique. */
  predicate DistinctRelIds(items: seq<Relationship>) {
    forall i, j :: 0 <= i < j < |items| ==> items[i].id != items[j].id
  }

  lemma AddRelationshipDistinct(items: seq<Relationship>, rel: Relationship)
    requires DistinctRelIds(items)
    ensures DistinctRelIds(AddRelationship(items, rel)) && HasRelId(AddRelationship(items, rel), rel.id)
  {
    var r := AddRelationship(items, rel);
    if !HasRelId(items, rel.id) {
      assert r[|items|] == rel;
      forall i | 0 <= i < |items| ensures items[i].id != rel.id {
        assert items[i] in items;
      }
    }
  }

  const RelsContentType := ContentType("rels", RelationshipsContentType)
  const ModelPartContentType := ContentType("model", ModelContentType)
  /** The relationship a document gets when none was given. */
  const DefaultRelationship := Relationship("rel0", Some(ThreeDimModelType), Some("/3D/3dmodel.model"))

  // ---------------------------------------------------------------------
  // ThreeMfObjectBuilder, ThreeMfComponentsBuilder, ThreeMfMeshBuilder

  class ObjectBuilder {
    var obj: Object
    /** The mesh builder's vertex and triangle post-process handlers. */
    var vh: Option<Vertex -> Vertex>
    var th: Option<Triangle -> Triangle>

    /** `new ThreeMfObjectBuilder(id, type)`. */
    constructor (id: int, kind: ObjectType)
      ensures obj == NewObject(id, kind) && vh.None? && th.None?
    {
      obj := NewObject(id, kind);
      vh, th := None, None;
    }

    /** `new ThreeMfComponentsBuilder(id, type)`: the content starts as an empty components list. */
    constructor Components(id: int, kind: ObjectType)
      ensures obj == NewObject(id, kind).(content := Some(ComponentsContent([]))) && vh.None? && th.None?
    {
      obj := NewObject(id, kind).(content := Some(ComponentsContent([])));
      vh, th := None, None;
    }

    /** `new ThreeMfMeshBuilder(id)`: a model-type object. */
    constructor Mesh(id: int)
      ensures obj == NewObject(id, ModelType) && vh.None? && th.None?
    {
      obj := NewObject(id, ModelType);
      vh, th := None, None;
    }

    method WithName(name: string) returns (self: ObjectBuilder)
      modifies this
      ensures self == this && obj == old(obj).(name := Some(name)) && vh == old(vh) && th == old(th)
    {
      obj := obj.(name := Some(name));
      return this;
    }

    method WithThumbnail(thumbnail: string) returns (self: ObjectBuilder)
      modifies this
      ensures self == this && obj == old(obj).(thumbnail := Some(thumbnail)) && vh == old(vh) && th == old(th)
    {
      obj := obj.(thumbnail := Some(thumbnail));
      return this;
    }

    /** withProperty(id, index): sets pid to `id` and overwrites the object id with `index`; pindex is left alone. */
    method WithProperty(id: int, index: int) returns (self: ObjectBuilder)
      modifies this
      ensures self == this && obj == old(obj).(pid := Some(id), id := index) && vh == old(vh) && th == old(th)
      ensures obj.pindex == old(obj.pindex)
    {
      obj := obj.(pid := Some(id), id := index);
      return this;
    }

    method Build() returns (o: Object)
      ensures o == obj
    {
      return obj;
    }

    /** reset(id, type): a fresh object; the content and handlers of a subclass are not restored. */
    method Reset(id: int, kind: ObjectType)
      modifies this
      ensures obj == NewObject(id, kind) && vh == old(vh) && th == old(th)
    {
      obj := NewObject(id, kind);
    }

    /**
     * withComponent: appends (objectid, transform) to the components list; an
     * object without one (after reset) has no list to push into.
     */
    method WithComponent(id: int, t: Option<Matrix3D>) returns (r: Result<ObjectBuilder>)
      modifies this
      ensures old(obj.content).Some? && old(obj.content).value.ComponentsContent? ==>
        r == Ok(this) && obj == old(obj).(content := Some(ComponentsContent(old(obj.content).value.components + [NewComponent(id, t)])))
      ensures !(old(obj.content).Some? && old(obj.content).value.ComponentsContent?) ==> r.Err? && obj == old(obj)
      ensures vh == old(vh) && th == old(th)
    {
      if obj.content.Some? && obj.content.value.ComponentsContent? {
        obj := obj.(content := Some(ComponentsContent(obj.content.value.components + [NewComponent(id, t)])));
        return Ok(this);
      }
      return Err("content is not a components list");
    }

    method WithPostProcessHandlers(vertex: Vertex -> Vertex, triangle: Option<Triangle -> Triangle>) returns (self: ObjectBuilder)
      modifies this
      ensures self == this && vh == Some(vertex) && th == triangle && obj == old(obj)
    {
      vh, th := Some(vertex), triangle;
      return this;
    }

    /** withMaterial(id, i) of the mesh builder: pid and pindex. */
    method WithMaterial(id: int, i: int) returns (self: ObjectBuilder)
      modifies this
      ensures self == this && obj == old(obj).(pid := Some(id), pindex := Some(i)) && vh == old(vh) && th == old(th)
      ensures PropertyReferenceComplete(obj)
    {
      obj := obj.(pid := Some(id), pindex := Some(i));
      return this;
    }

    /**
     * withData: the content becomes the mesh read from the vertex data.
     * Index data is taken in whole triples, as the vertex data documents.
     */
    method WithData(data: VertexData) returns (self: ObjectBuilder)
      requires data.indices.Some? ==> |data.indices.value| % 3 == 0
      modifies this
      ensures self == this && vh == old(vh) && th == old(th)
      ensures obj.content.Some? && obj.content.value.MeshContent?
      ensures obj == old(obj).(content := obj.content)
      ensures var m := obj.content.value.mesh;
        var p := data.positions.GetOr([]);
        var idx := data.indices.GetOr([]);
        |m.vertices| == VertexCount(|p|)
        && (forall k :: 0 <= k < |m.vertices| ==> m.vertices[k] == Handle(vh, VertexAt(p, k)))
        && |m.triangles| == |idx| / 3
        && (forall k :: 0 <= k < |m.triangles| ==> m.triangles[k] == Handle(th, TriangleAt(idx, k)))
    {
      var vs := BuildVertices(data.positions);
      var ts := BuildTriangles(data.indices);
      obj := obj.(content := Some(MeshContent(NewMesh(Some(vs), Some(ts)))));
      return this;
    }

    /** _buildVertices: one vertex per position triple, in order, through the vertex handler. */
    method BuildVertices(p: Option<seq<real>>) returns (vs: seq<Vertex>)
      ensures var q := p.GetOr([]);
        |vs| == VertexCount(|q|) && forall k :: 0 <= k < |vs| ==> vs[k] == Handle(vh, VertexAt(q, k))
    {
      vs := [];
      if p.Some? {
        var q := p.value;
        var i := 0;
        while i < |q|
          invariant i == 3 * |vs| && i <= |q| + 2
          invariant forall k :: 0 <= k < |vs| ==> vs[k] == Handle(vh, VertexAt(q, k))
          decreases |q| - i
        {
          var x := Coord(q, i);
          var y := Coord(q, i + 1);
          var z := Coord(q, i + 2);
          var v := Vertex(x, y, z);
          if vh.Some? {
            v := vh.value(v);
          }
          vs := vs + [v];
          i := i + 3;
        }
      }
    }

    /** _buildTriangle: one triangle per index triple, in order, through the triangle handler. */
    method BuildTriangles(idx: Option<seq<int>>) returns (ts: seq<Triangle>)
      requires idx.Some? ==> |idx.value| % 3 == 0
      ensures var q := idx.GetOr([]);
        |ts| == |q| / 3 && forall k :: 0 <= k < |ts| ==> ts[k] == Handle(th, TriangleAt(q, k))
    {
      ts := [];
      if idx.Some? {
        var q := idx.value;
        var i := 0;
        while i < |q|
          invariant i == 3 * |ts| && i <= |q|
          invariant forall k :: 0 <= k < |ts| ==> ts[k] == Handle(th, TriangleAt(q, k))
          decreases |q| - i
        {
          var t := NewTriangle(q[i], q[i + 1], q[i + 2]);
          if th.Some? {
            t := th.value(t);
          }
          ts := ts + [t];
          i := i + 3;
        }
      }
    }
  }

  // ---------------------------------------------------------------------
  // ThreeMfMaterialBuilder

  class MaterialBuilder {
    var m: BaseMaterials
    /** Stands for Math.pow(c, 1 / 2.2). */
    const gamma: real -> real

    constructor (id: int, gamma: real -> real)
      ensures m == NewBaseMaterials(id) && this.gamma == gamma && UniqueNames(m.base)
    {
      m := NewBaseMaterials(id);
      this.gamma := gamma;
    }

    /** withColor: sets the colour of the base of that name, ignoring case, or appends a new base. */
    method WithColor(name: string, color: RgbaColor) returns (self: MaterialBuilder)
      modifies this
      ensures self == this && m.id == old(m.id)
      ensures m.base == UpsertColor(old(m.base), name, BuilderColorHex(color, gamma))
      ensures UniqueNames(old(m.base)) ==> UniqueNames(m.base)
    {
      var hex := BuilderColorHex(color, gamma);
      m := m.(base := UpsertColor(m.base, name, hex));
      return this;
    }

    method Build() returns (b: BaseMaterials)
      ensures b == m
    {
      return m;
    }
  }

  // ---------------------------------------------------------------------
  // ThreeMfModelBuilder

  /** The resources, created on first use. */
  function ResourcesOr(m: Model): Resources {
    m.resources.GetOr(Resources([], None))
  }

  /** What build() checks: at least one object resource and at least one build item. */
  predicate Buildable(m: Model) {
    m.resources.Some? && |m.resources.value.objects| > 0 && m.build.Some? && |m.build.value.items| > 0
  }

  class ModelBuilder {
    var model: Model

    constructor ()
      ensures model == NewModel()
    {
      model := NewModel();
    }

    /** withMetaData: appends one meta entry, creating the list on first use. */
    method WithMetaData(name: string, value: string, preserve: Option<bool>, kind: Option<string>) returns (self: ModelBuilder)
      modifies this
      ensures self == this
      ensures model == old(model).(metadata := Some(old(model).metadata.GetOr([]) + [NewMeta(name, value, preserve, kind)]))
    {
      model := model.(metadata := Some(model.metadata.GetOr([]) + [NewMeta(name, value, preserve, kind)]));
      return this;
    }

    /** withMaterial: appends a base material group, creating resources and the group list on first use. */
    method WithMaterial(material: BaseMaterials) returns (self: ModelBuilder)
      modifies this
      ensures self == this
      ensures var res := ResourcesOr(old(model));
        model == old(model).(resources := Some(res.(basematerials := Some(res.basematerials.GetOr([]) + [material]))))
    {
      var res := ResourcesOr(model);
      model := model.(resources := Some(res.(basematerials := Some(res.basematerials.GetOr([]) + [material]))));
      return this;
    }

    /** withMesh and withComponents: append one object resource, creating resources on first use. */
    method WithObject(o: Object) returns (self: ModelBuilder)
      modifies this
      ensures self == this
      ensures var res := ResourcesOr(old(model));
        model == old(model).(resources := Some(res.(objects := res.objects + [o])))
    {
      var res := ResourcesOr(model);
      model := model.(resources := Some(res.(objects := res.objects + [o])));
      return this;
    }

    /** withBuild: appends one build item, creating the build on first use. */
    method WithBuild(objectid: int, transform: Option<Matrix3D>, partnumber: Option<string>) returns (self: ModelBuilder)
      modifies this
      ensures self == this
      ensures model == old(model).(build := Some(Build(old(model).build.GetOr(Build([])).items + [NewItem(objectid, transform, partnumber)])))
    {
      model := model.(build := Some(Build(model.build.GetOr(Build([])).items + [NewItem(objectid, transform, partnumber)])));
      return this;
    }

    method WithUnit(unit: Unit) returns (self: ModelBuilder)
      modifies this
      ensures self == this && model == old(model).(unit := Some(unit))
    {
      model := model.(unit := Some(unit));
      return this;
    }

    method Reset() returns (self: ModelBuilder)
      modifies this
      ensures self == this && model == NewModel()
    {
      model := NewModel();
      return this;
    }

    /** build(): the model, provided it has an object resource and a build item. */
    method BuildModel() returns (r: Result<Model>)
      ensures Buildable(model) <==> r.Ok?
      ensures r.Ok? ==> r.value == model
    {
      if model.resources.None? || |model.resources.value.objects| == 0 {
        return Err("Invalid state: resources MUST be defined ");
      }
      if model.build.None? || |model.build.value.items| == 0 {
        return Err("Invalid state: Build MUST be defined ");
      }
      return Ok(model);
    }
  }

  /** A model with objects but no build item can never be built. */
  lemma NoBuildNeverBuildable(m: Model)
    requires m.build.None?
    ensures !Buildable(m)
  {
  }

  // ---------------------------------------------------------------------
  // ThreeMfDocumentBuilder

  class DocumentBuilder {
    var cts: Option<ContentTypes>
    var rs: Option<Relationships>
    var m: Option<Model>

    /** The lists never hold duplicates, and whenever relationships or a model exist, so do content types. */
    ghost predicate Valid()
      reads this
    {
      (cts.Some? ==> DistinctContentTypes(cts.value.items))
      && (rs.Some? ==> DistinctRelIds(rs.value.items) && cts.Some? && RelsContentType in cts.value.items)
      && (m.Some? ==> cts.Some? && ModelPartContentType in cts.value.items)
    }

    constructor ()
      ensures cts.None? && rs.None? && m.None? && Valid()
    {
      cts, rs, m := None, None, None;
    }

    /** withContentType: added unless the same (extension, content type) pair is listed already. */
    method WithContentType(t: ContentType)
      requires Valid()
      modifies this
      ensures Valid()
      ensures cts == Some(ContentTypes(AddContentType(old(cts).GetOr(ContentTypes([])).items, t)))
      ensures rs == old(rs) && m == old(m)
    {
      var items := cts.GetOr(ContentTypes([])).items;
      AddContentTypeDistinct(items, t);
      cts := Some(ContentTypes(AddContentType(items, t)));
    }

    /** withRelationship: added unless its id is taken, and the relationships content type is declared. */
    method WithRelationship(rel: Relationship)
      requires Valid()
      modifies this
      ensures Valid()
      ensures rs == Some(Relationships(AddRelationship(old(rs).GetOr(Relationships([])).items, rel)))
      ensures cts == Some(ContentTypes(AddContentType(old(cts).GetOr(ContentTypes([])).items, RelsContentType)))
      ensures m == old(m)
    {
      var items := rs.GetOr(Relationships([])).items;
      AddRelationshipDistinct(items, rel);
      rs := Some(Relationships(AddRelationship(items, rel)));
      var old_cts := cts.GetOr(ContentTypes([])).items;
      AddContentTypeDistinct(old_cts, RelsContentType);
      cts := Some(ContentTypes(AddContentType(old_cts, RelsContentType)));
    }

    /** withModel: the model, and the model content type is declared. */
    method WithModel(model: Model)
      requires Valid()
      modifies this
      ensures Valid()
      ensures m == Some(model) && rs == old(rs)
      ensures cts == Some(ContentTypes(AddContentType(old(cts).GetOr(ContentTypes([])).items, ModelPartContentType)))
    {
      var items := cts.GetOr(ContentTypes([])).items;
      AddContentTypeDistinct(items, ModelPartContentType);
      m := Some(model);
      cts := Some(ContentTypes(AddContentType(items, ModelPartContentType)));
    }

    /** withModel(builder): the builder is built first, and its error is the caller's. */
    method WithModelBuilder(b: ModelBuilder) returns (r: Result<()>)
      requires Valid()
      modifies this
      ensures Valid()
      ensures Buildable(b.model) <==> r.Ok?
      ensures r.Ok? ==> m == Some(b.model) && rs == old(rs)
      ensures r.Ok? ==> cts == Some(ContentTypes(AddContentType(old(cts).GetOr(ContentTypes([])).items, ModelPartContentType)))
      ensures r.Err? ==> cts == old(cts) && rs == old(rs) && m == old(m)
    {
      var built := b.BuildModel();
      if built.Err? {
        return Err(built.error);
      }
      WithModel(built.value);
      return Ok(());
    }

    /**
     * build(): fails without a model; otherwise, when no relationship was
     * given, adds `rel0` pointing at /3D/3dmodel.model, then bundles the parts.
     */
    method Build() returns (r: Result<Document>)
      requires Valid()
      modifies this
      ensures Valid()
      ensures old(m).None? <==> r.Err?
      ensures r.Err? ==> cts == old(cts) && rs == old(rs) && m == old(m)
      ensures r.Ok? && old(rs).None? ==> r.value.relationships.items == [DefaultRelationship]
      ensures r.Ok? && old(rs).Some? ==> r.value.relationships == old(rs).value
      ensures r.Ok? ==>
        r.value.model == old(m).value && ModelPartContentType in r.value.contentTypes.items
        && RelsContentType in r.value.contentTypes.items
        && DistinctContentTypes(r.value.contentTypes.items) && DistinctRelIds(r.value.relationships.items)
      ensures r.Ok? ==> m == old(m) && cts == Some(r.value.contentTypes) && rs == Some(r.value.relationships)
      ensures r.Ok? && old(rs).None? ==> r.value.contentTypes.items == AddContentType(old(cts).value.items, RelsContentType)
      ensures r.Ok? && old(rs).Some? ==> r.value.contentTypes == old(cts).value
    {
      if m.None? {
        return Err("Invalid state: you Must provide at least a model.");
      }
      if rs.None? {
        WithRelationship(DefaultRelationship);
      }
      return Ok(NewDocument(cts.value, rs.value, m.value));
    }
  }
}
