/**
 * The record shapes of a 3MF model (3D Manufacturing Format, Core
 * Specification: "Object Resources", "Material Resources", "Build") and the
 * framework-neutral vertex data the exporter starts from.
 */
module ThreeMfInterfaces {
  import opened Wrappers

  /** The XML namespace of the core model schema. */
  const ThreeDimModelNamespace := "http://schemas.microsoft.com/3dmanufacturing/core/2015/02"
  /** The XML namespace of the TriangleSets extension. */
  const TriangleSetsNamespace := "http://schemas.microsoft.com/3dmanufacturing/trianglesets/2021/07"

  // ---------------------------------------------------------------------
  // Enumerations

  /** The unit the vertex coordinates are expressed in. */
  datatype Unit = Micron | Millimeter | Centimeter | Inch | Foot | Meter

  /** The string value each unit is written as. */
  function UnitName(u: Unit): string {
    match u
    case Micron => "micron"
    case Millimeter => "millimeter"
    case Centimeter => "centimeter"
    case Inch => "inch"
    case Foot => "foot"
    case Meter => "meter"
  }

  function ParseUnit(s: string): (r: Option<Unit>)
    ensures r.Some? ==> UnitName(r.value) == s
  {
    if s == "micron" then Some(Micron)
    else if s == "millimeter" then Some(Millimeter)
    else if s == "centimeter" then Some(Centimeter)
    else if s == "inch" then Some(Inch)
    else if s == "foot" then Some(Foot)
    else if s == "meter" then Some(Meter)
    else None
  }

  /** Exactly six strings name a unit, one for each unit. */
  lemma UnitNamesRoundTrip(u: Unit)
    ensures ParseUnit(UnitName(u)) == Some(u)
  {
  }

  /** The kind of an object resource. */
  datatype ObjectType = ModelType | SolidSupport | Support | Surface | Other

  function ObjectTypeName(t: ObjectType): string {
    match t
    case ModelType => "model"
    case SolidSupport => "solidsupport"
    case Support => "support"
    case Surface => "surface"
    case Other => "other"
  }

  function ParseObjectType(s: string): (r: Option<ObjectType>)
    ensures r.Some? ==> ObjectTypeName(r.value) == s
  {
    if s == "model" then Some(ModelType)
    else if s == "solidsupport" then Some(SolidSupport)
    else if s == "support" then Some(Support)
    else if s == "surface" then Some(Surface)
    else if s == "other" then Some(Other)
    else None
  }

  lemma ObjectTypeNamesRoundTrip(t: ObjectType)
    ensures ParseObjectType(ObjectTypeName(t)) == Some(t)
  {
  }

  // ---------------------------------------------------------------------
  // Records

  /** A 3x4 transform: the twelve numbers m00 m01 m02 m10 m11 m12 m20 m21 m22 m30 m31 m32. */
  type Matrix3D = s: seq<real> | |s| == 12
    witness [0.0, 0.0, 0.0, 0.0, 0.0, 0.0, 0.0, 0.0, 0.0, 0.0, 0.0, 0.0]

  datatype Metadata = Metadata(name: string, preserve: Option<bool>, kind: Option<string>, value: string)

  datatype MetadataGroup = MetadataGroup(metadata: seq<Metadata>)

  datatype Vertex = Vertex(x: real, y: real, z: real)

  /** A triangle: three vertex indices, optional per-vertex property indices and an optional property group. */
  datatype Triangle = Triangle(v1: int, v2: int, v3: int,
                               p1: Option<int>, p2: Option<int>, p3: Option<int>, pid: Option<int>)

  datatype Mesh = Mesh(vertices: seq<Vertex>, triangles: seq<Triangle>)

  datatype Component = Component(objectid: int, transform: Option<Matrix3D>)

  /** What an object is made of: a mesh or a list of components, never both. */
  datatype Content = MeshContent(mesh: Mesh) | ComponentsContent(components: seq<Component>)

  datatype Object = Object(id: int, kind: Option<ObjectType>, thumbnail: Option<string>,
                           partnumber: Option<string>, name: Option<string>,
                           pid: Option<int>, pindex: Option<int>,
                           metadatagroup: Option<MetadataGroup>, content: Option<Content>)

  datatype Base = Base(name: string, displaycolor: string)

  datatype BaseMaterials = BaseMaterials(id: int, base: seq<Base>)

  datatype Resources = Resources(objects: seq<Object>, basematerials: Option<seq<BaseMaterials>>)

  datatype Item = Item(objectid: int, transform: Option<Matrix3D>, partnumber: Option<string>,
                       metadatagroup: Option<MetadataGroup>)

  datatype Build = Build(items: seq<Item>)

  datatype Model = Model(unit: Option<Unit>, requiredextensions: Option<string>,
                         recommendedextensions: Option<string>, metadata: Option<seq<Metadata>>,
                         resources: Option<Resources>, build: Option<Build>)

  // ---------------------------------------------------------------------
  // The invariants the record documentation states

  /** Every triangle corner is an index into the owning mesh's vertex list. */
  predicate TrianglesReferenceVertices(m: Mesh) {
    forall t :: t in m.triangles ==>
      0 <= t.v1 < |m.vertices| && 0 <= t.v2 < |m.vertices| && 0 <= t.v3 < |m.vertices|
  }

  /** A property index is only meaningful inside the group `pid` names. */
  predicate PropertyReferenceComplete(o: Object) {
    o.pindex.Some? ==> o.pid.Some?
  }

  /** Object ids are unique within the resources. */
  predicate UniqueObjectIds(r: Resources) {
    forall i, j :: 0 <= i < j < |r.objects| ==> r.objects[i].id != r.objects[j].id
  }

  /** Base material group ids are unique within the resources. */
  predicate UniqueBaseMaterialIds(r: Resources) {
    r.basematerials.Some? ==>
      forall i, j :: 0 <= i < j < |r.basematerials.value| ==>
        r.basematerials.value[i].id != r.basematerials.value[j].id
  }

  /** The property group a triangle's p1/p2/p3 index into: its own pid, or else its object's. */
  function EffectivePid(o: Object, t: Triangle): Option<int> {
    if t.pid.Some? then t.pid else o.pid
  }

  /** A triangle that names its own group is unaffected by the object's group. */
  lemma TrianglePidOverrides(o: Object, o': Object, t: Triangle)
    requires t.pid.Some?
    ensures EffectivePid(o, t) == EffectivePid(o', t) == t.pid
  {
  }

  // ---------------------------------------------------------------------
  // Framework-neutral vertex data

  /** Flattened geometry: positions [.., x, y, z, ..], indices [.., i, j, k, ..], normals, colours [.., r, g, b, a, ..]. */
  datatype VertexData = VertexData(positions: Option<seq<real>>, indices: Option<seq<int>>,
                                   normals: Option<seq<real>>, colors: Option<seq<real>>)

  /** The documented layout: whole position and normal triples, whole index triples, whole colour quadruples. */
  predicate WellShaped(d: VertexData) {
    (d.positions.Some? ==> |d.positions.value| % 3 == 0)
    && (d.indices.Some? ==> |d.indices.value| % 3 == 0)
    && (d.normals.Some? ==> |d.normals.value| % 3 == 0)
    && (d.colors.Some? ==> |d.colors.value| % 4 == 0)
  }

  /** Positions and (when present) normals and colours describe the same vertices. */
  predicate PerVertexConsistent(d: VertexData)
    requires WellShaped(d)
  {
    var n := if d.positions.Some? then |d.positions.value| / 3 else 0;
    (d.normals.Some? ==> |d.normals.value| / 3 == n) && (d.colors.Some? ==> |d.colors.value| / 4 == n)
  }

  /** A colour with required r, g, b channels and an optional alpha. */
  datatype RgbaColor = RgbaColor(r: real, g: real, b: real, a: Option<real>)
}
