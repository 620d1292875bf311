/**
 * The concrete 3MF model classes: the 3x4 matrix and its text forms, the
 * colour encoder, the record constructors with their defaults, and the
 * descriptor tables the XmlName / XmlAttr decorators attach to each class.
 */
module ThreeMfModel {
  import opened Wrappers
  import opened JsRuntime
  import opened ThreeMfInterfaces
  import opened XmlInterfaces
  import XmlFormat
  import XmlSerialization

  // ---------------------------------------------------------------------
  // Matrix3d

  /**
   * What a 3MF matrix means: the point (x, y, z) taken as the row vector
   * (x, y, z, 1) times the 4x3 matrix whose rows are the values 0-2, 3-5,
   * 6-8 and 9-11.
   */
  function Apply(m: Matrix3D, p: Vertex): Vertex {
    Vertex(p.x * m[0] + p.y * m[3] + p.z * m[6] + m[9],
           p.x * m[1] + p.y * m[4] + p.z * m[7] + m[10],
           p.x * m[2] + p.y * m[5] + p.z * m[8] + m[11])
  }

  /** Matrix3d.Zero: twelve zeros, which sends every point to the origin. */
  function Zero(): (m: Matrix3D)
    ensures forall i :: 0 <= i < 12 ==> m[i] == 0.0
    ensures forall p :: Apply(m, p) == Vertex(0.0, 0.0, 0.0)
  {
    [0.0, 0.0, 0.0, 0.0, 0.0, 0.0, 0.0, 0.0, 0.0, 0.0, 0.0, 0.0]
  }

  /** Matrix3d.Identity: leaves every point where it is. */
  function Identity(): (m: Matrix3D)
    ensures forall p :: Apply(m, p) == p
  {
    [1.0, 0.0, 0.0, 0.0, 1.0, 0.0, 0.0, 0.0, 1.0, 0.0, 0.0, 0.0]
  }

  /** Matrix3d.Translate: moves every point by (tx, ty, tz); the linear part is the identity's. */
  function Translate(tx: real, ty: real, tz: real): (m: Matrix3D)
    ensures m[..9] == Identity()[..9] && m[9..] == [tx, ty, tz]
    ensures forall p :: Apply(m, p) == Vertex(p.x + tx, p.y + ty, p.z + tz)
  {
    [1.0, 0.0, 0.0, 0.0, 1.0, 0.0, 0.0, 0.0, 1.0, tx, ty, tz]
  }

  /** A translation by nothing is the identity. */
  lemma TranslateZeroIsIdentity()
    ensures Translate(0.0, 0.0, 0.0) == Identity()
  {
    assert Translate(0.0, 0.0, 0.0)[..9] == Identity()[..9];
    assert Translate(0.0, 0.0, 0.0)[9..] == Identity()[9..];
  }

  /** Matrix3d.toString: the values, each through `show` (JavaScript's number-to-text), joined with single spaces. */
  function MatrixText(m: Matrix3D, show: real -> string): string {
    Join(seq(12, i requires 0 <= i < 12 => show(m[i])), " ")
  }

  /** The text of a matrix splits back, on its spaces, into the twelve texts of its values. */
  lemma MatrixTextSplits(m: Matrix3D, show: real -> string)
    requires forall i :: 0 <= i < 12 ==> !ContainsChar(show(m[i]), ' ')
    ensures |Split(MatrixText(m, show), ' ')| == 12
    ensures forall i :: 0 <= i < 12 ==> Split(MatrixText(m, show), ' ')[i] == show(m[i])
  {
    var parts := seq(12, i requires 0 <= i < 12 => show(m[i]));
    SplitJoin(parts, ' ');
  }

  /** A Matrix3d instance as the serializer sees it: an object with one `values` array of twelve numbers. */
  function MatrixVal(id: nat, valuesId: nat, m: Matrix3D): Val {
    Obj(id, "Matrix3d", [Field("values", Arr(valuesId, seq(12, i requires 0 <= i < 12 => Num(Finite(m[i])))))])
  }

  /** The items of an object's `values` array, if it has one. */
  function ValuesOf(v: Val): Option<seq<Val>> {
    if v.Obj? && |v.fields| == 1 && v.fields[0].prop == "values" && v.fields[0].value.Arr?
    then Some(v.fields[0].value.items) else None
  }

  /** Each item through `fmt`; the first failure, or a non-number, is an error. */
  function FormatAll(items: seq<Val>, fmt: Double -> Result<string>): (r: Result<seq<string>>)
    ensures r.Ok? ==> |r.value| == |items|
  {
    if items == [] then Ok([])
    else if !items[0].Num? then Err("not a number")
    else
      var h := fmt(items[0].n);
      if h.Err? then Err(h.error)
      else
        var t := FormatAll(items[1..], fmt);
        if t.Err? then t else Ok([h.value] + t.value)
  }

  /** MatrixFormatter.toString: every value through the number formatter, joined with single spaces. */
  function MatrixFormatter(v: Val, o: XmlFormat.FormatOptions): Result<string> {
    var items := ValuesOf(v);
    if items.None? then Err("values is undefined")
    else
      var parts := FormatAll(items.value, x => XmlFormat.FormatNumber(x, o));
      if parts.Err? then Err(parts.error) else Ok(Join(parts.value, " "))
  }

  lemma {:induction false} FormatAllOk(items: seq<Val>, fmt: Double -> Result<string>)
    requires forall i :: 0 <= i < |items| ==> items[i].Num? && fmt(items[i].n).Ok?
    ensures var r := FormatAll(items, fmt);
      r.Ok? && |r.value| == |items| && forall i :: 0 <= i < |items| ==> r.value[i] == fmt(items[i].n).value
    decreases |items|
  {
    if items != [] {
      FormatAllOk(items[1..], fmt);
    }
  }

  lemma {:induction false} FormatAllErr(items: seq<Val>, fmt: Double -> Result<string>, k: nat)
    requires k < |items| && items[k].Num? && fmt(items[k].n).Err?
    ensures FormatAll(items, fmt).Err?
    decreases k
  {
    if k > 0 && items[0].Num? && fmt(items[0].n).Ok? {
      FormatAllErr(items[1..], fmt, k - 1);
    }
  }

  /** The text of a formatting result, empty for an error. */
  function TextOr(r: Result<string>): string {
    if r.Ok? then r.value else ""
  }

  /**
   * The transform text of a matrix: when every value formats, the matrix's
   * text with each value formatted; when one does not, an error.
   */
  lemma MatrixFormatterOf(id: nat, valuesId: nat, m: Matrix3D, o: XmlFormat.FormatOptions)
    ensures var r := MatrixFormatter(MatrixVal(id, valuesId, m), o);
      (r.Ok? <==> forall i :: 0 <= i < 12 ==> XmlFormat.FormatNumber(Finite(m[i]), o).Ok?)
      && (r.Ok? ==> r.value == MatrixText(m, x => TextOr(XmlFormat.FormatNumber(Finite(x), o))))
  {
    if forall i :: 0 <= i < 12 ==> XmlFormat.FormatNumber(Finite(m[i]), o).Ok? {
      MatrixFormatterAllOk(id, valuesId, m, o);
    } else {
      var k :| 0 <= k < 12 && XmlFormat.FormatNumber(Finite(m[k]), o).Err?;
      MatrixFormatterOneErr(id, valuesId, m, o, k);
    }
  }

  lemma MatrixFormatterAllOk(id: nat, valuesId: nat, m: Matrix3D, o: XmlFormat.FormatOptions)
    requires forall i :: 0 <= i < 12 ==> XmlFormat.FormatNumber(Finite(m[i]), o).Ok?
    ensures var r := MatrixFormatter(MatrixVal(id, valuesId, m), o);
      r.Ok? && r.value == MatrixText(m, x => TextOr(XmlFormat.FormatNumber(Finite(x), o)))
  {
    var items := seq(12, i requires 0 <= i < 12 => Num(Finite(m[i])));
    var fmt := x => XmlFormat.FormatNumber(x, o);
    assert ValuesOf(MatrixVal(id, valuesId, m)) == Some(items);
    FormatAllOk(items, fmt);
    var show := x => TextOr(XmlFormat.FormatNumber(Finite(x), o));
    var parts := FormatAll(items, fmt).value;
    assert parts == seq(12, i requires 0 <= i < 12 => show(m[i]));
  }

  lemma MatrixFormatterOneErr(id: nat, valuesId: nat, m: Matrix3D, o: XmlFormat.FormatOptions, k: nat)
    requires k < 12 && XmlFormat.FormatNumber(Finite(m[k]), o).Err?
    ensures MatrixFormatter(MatrixVal(id, valuesId, m), o).Err?
  {
    var items := seq(12, i requires 0 <= i < 12 => Num(Finite(m[i])));
    var fmt := x => XmlFormat.FormatNumber(x, o);
    assert ValuesOf(MatrixVal(id, valuesId, m)) == Some(items);
    FormatAllErr(items, fmt, k);
  }

  // ---------------------------------------------------------------------
  // RgbaToHex

  /** clampByte: rounded, then held in [0, 255]. */
  function ClampByte(v: real): (b: nat)
    ensures b <= 255
    ensures 0 <= Round(v) <= 255 ==> b == Round(v)
    ensures Round(v) < 0 ==> b == 0
    ensures Round(v) > 255 ==> b == 255
  {
    var n := Round(v);
    if n < 0 then 0 else if n > 255 then 255 else n
  }

  /** A byte clamps to itself, so clamping twice changes nothing. */
  lemma ClampByteOfByte(b: nat)
    requires b <= 255
    ensures ClampByte(b as real) == b
  {
    assert (b as real + 0.5).Floor == b;
  }

  /** The alpha byte: an alpha of at most 1 is a fraction of 255, a larger one is a byte already. */
  function AlphaByte(a: real): (b: nat)
    ensures b <= 255
    ensures a <= 1.0 ==> b == ClampByte(a * 255.0)
    ensures a > 1.0 ==> b == ClampByte(a)
  {
    if a <= 1.0 then ClampByte(a * 255.0) else ClampByte(a)
  }

  /** RgbaToHex: `#RRGGBB`, or `#RRGGBBAA` when the colour has an alpha; channels are bytes, no gamma. */
  function RgbaToHex(c: RgbaColor): (s: string)
    ensures |s| == (if c.a.Some? then 9 else 7) && s[0] == '#'
  {
    var rgb := "#" + Hex2(ClampByte(c.r)) + Hex2(ClampByte(c.g)) + Hex2(ClampByte(c.b));
    if c.a.Some? then rgb + Hex2(ClampByte(AlphaByte(c.a.value) as real)) else rgb
  }

  /** Four channel bytes, the last one optional. */
  datatype Rgba8 = Rgba8(r: nat, g: nat, b: nat, a: Option<nat>)

  function Byte2(s: string): nat
    requires |s| == 2 && IsHexDigit(s[0]) && IsHexDigit(s[1])
  {
    16 * HexValue(s[0]) + HexValue(s[1])
  }

  predicate AllHex(s: string) { forall i :: 0 <= i < |s| ==> IsHexDigit(s[i]) }

  /** Reads a `#RRGGBB` or `#RRGGBBAA` colour back into its bytes. */
  function ParseHexColor(s: string): (r: Option<Rgba8>)
    ensures r.Some? ==> (|s| == 7 || |s| == 9) && s[0] == '#'
  {
    if (|s| == 7 || |s| == 9) && s[0] == '#' && AllHex(s[1..]) then
      Some(Rgba8(Byte2(s[1..3]), Byte2(s[3..5]), Byte2(s[5..7]), if |s| == 9 then Some(Byte2(s[7..9])) else None))
    else None
  }

  /** The encoded colour reads back as the clamped channel bytes, with the alpha byte exactly when there is an alpha. */
  lemma RgbaToHexRoundTrip(c: RgbaColor)
    ensures ParseHexColor(RgbaToHex(c))
         == Some(Rgba8(ClampByte(c.r), ClampByte(c.g), ClampByte(c.b),
                       if c.a.Some? then Some(AlphaByte(c.a.value)) else None))
  {
    if c.a.Some? {
      TranslucentRoundTrip(c);
    } else {
      OpaqueRoundTrip(c);
    }
  }

  lemma OpaqueRoundTrip(c: RgbaColor)
    requires c.a.None?
    ensures ParseHexColor(RgbaToHex(c)) == Some(Rgba8(ClampByte(c.r), ClampByte(c.g), ClampByte(c.b), None))
  {
    var s := RgbaToHex(c);
    assert s[1..3] == Hex2(ClampByte(c.r)) && s[3..5] == Hex2(ClampByte(c.g)) && s[5..7] == Hex2(ClampByte(c.b));
    assert AllHex(s[1..]);
  }

  lemma TranslucentRoundTrip(c: RgbaColor)
    requires c.a.Some?
    ensures ParseHexColor(RgbaToHex(c))
         == Some(Rgba8(ClampByte(c.r), ClampByte(c.g), ClampByte(c.b), Some(AlphaByte(c.a.value))))
  {
    var s := RgbaToHex(c);
    assert s[1..3] == Hex2(ClampByte(c.r)) && s[3..5] == Hex2(ClampByte(c.g)) && s[5..7] == Hex2(ClampByte(c.b));
    assert s[7..9] == Hex2(ClampByte(AlphaByte(c.a.value) as real));
    ClampByteOfByte(AlphaByte(c.a.value));
    assert AllHex(s[1..]);
  }

  // ---------------------------------------------------------------------
  // Constructors and their defaults

  /** `new ThreeMfModel()`: unit millimeter, everything else absent. */
  function NewModel(): (m: Model)
    ensures m.unit == Some(Millimeter)
    ensures m.requiredextensions.None? && m.recommendedextensions.None? && m.metadata.None?
    ensures m.resources.None? && m.build.None?
  {
    Model(Some(Millimeter), None, None, None, None, None)
  }

  /** `new ThreeMfMeta(name, value, preserve, type)`. */
  function NewMeta(name: string, value: string, preserve: Option<bool>, kind: Option<string>): (m: Metadata)
    ensures m.name == name && m.value == value && m.preserve == preserve && m.kind == kind
  {
    Metadata(name, preserve, kind, value)
  }

  /**
   * `new ThreeMfObject(id, type)`: id and type stored, every other field
   * absent. The constructor's type defaults to `model`; callers here always
   * pass one.
   */
  function NewObject(id: int, kind: ObjectType): (o: Object)
    ensures o.id == id && o.kind == Some(kind)
    ensures o.thumbnail.None? && o.partnumber.None? && o.name.None?
    ensures o.pid.None? && o.pindex.None? && o.metadatagroup.None? && o.content.None?
    ensures PropertyReferenceComplete(o)
  {
    Object(id, Some(kind), None, None, None, None, None, None, None)
  }

  /** `new ThreeMfMesh(vertices?, triangles?)`: a missing container becomes an empty one. */
  function NewMesh(vertices: Option<seq<Vertex>>, triangles: Option<seq<Triangle>>): (m: Mesh)
    ensures m.vertices == (if vertices.Some? then vertices.value else [])
    ensures m.triangles == (if triangles.Some? then triangles.value else [])
  {
    Mesh(vertices.GetOr([]), triangles.GetOr([]))
  }

  /** The default mesh has no triangles, so its triangles trivially reference its vertices. */
  lemma EmptyMeshWellFormed()
    ensures NewMesh(None, None) == Mesh([], [])
    ensures TrianglesReferenceVertices(NewMesh(None, None))
  {
  }

  /** `new ThreeMfTriangle(v1, v2, v3)`: the three corners, no property indices and no group. */
  function NewTriangle(v1: int, v2: int, v3: int): (t: Triangle)
    ensures t.v1 == v1 && t.v2 == v2 && t.v3 == v3
    ensures t.p1.None? && t.p2.None? && t.p3.None? && t.pid.None?
  {
    Triangle(v1, v2, v3, None, None, None, None)
  }

  /** A triangle built without a group takes its object's group. */
  lemma NewTriangleUsesObjectPid(o: Object, v1: int, v2: int, v3: int)
    ensures EffectivePid(o, NewTriangle(v1, v2, v3)) == o.pid
  {
  }

  /** `new ThreeMfComponent(objectid, transform?)`. */
  function NewComponent(objectid: int, transform: Option<Matrix3D>): (c: Component)
    ensures c.objectid == objectid && c.transform == transform
  {
    Component(objectid, transform)
  }

  /** `new ThreeMfBaseMaterials(id)`: no bases yet. */
  function NewBaseMaterials(id: int): (b: BaseMaterials)
    ensures b.id == id && b.base == []
  {
    BaseMaterials(id, [])
  }

  /** `new ThreeMfItem(objectid, transform?, partnumber?)`: no metadata group. */
  function NewItem(objectid: int, transform: Option<Matrix3D>, partnumber: Option<string>): (i: Item)
    ensures i.objectid == objectid && i.transform == transform && i.partnumber == partnumber
    ensures i.metadatagroup.None?
  {
    Item(objectid, transform, partnumber, None)
  }

  // ---------------------------------------------------------------------
  // The descriptor tables of the model classes

  function CoreName(name: string): XmlName {
    Qualified(QualifiedName(Some(ThreeDimModelNamespace), name))
  }

  /** `@XmlAttr({ name })` on property `prop`. */
  function Attr(prop: string, name: string): FieldMeta {
    XmlAttr(prop, Some(Plain(name)), None)
  }

  /** `@XmlAttr({ name: "transform", formatter: MatrixFormatter })`. */
  const TransformAttr: FieldMeta := XmlAttr("transform", Some(Plain("transform")), Some("MatrixFormatter"))

  /** The element names and attribute descriptors of the 3MF model classes, in declaration order. */
  function ModelRegistry(): Registry {
    map[
      "ThreeMfModel" := ClassMeta(Some(CoreName("model")),
        [Attr("unit", "unit"), Attr("requiredextensions", "requiredextensions"),
         Attr("recommendedextensions", "recommendedextensions")]),
      "ThreeMfMeta" := ClassMeta(Some(CoreName("meta")),
        [Attr("name", "name"), Attr("preserve", "preserve"), Attr("type", "type")]),
      "ThreeMfMetadataGroup" := ClassMeta(Some(CoreName("metadatagroup")), []),
      "ThreeMfResources" := ClassMeta(Some(CoreName("resources")), []),
      "ThreeMfObject" := ClassMeta(Some(CoreName("object")),
        [Attr("id", "id"), Attr("type", "type"), Attr("thumbnail", "thumbnail"),
         Attr("partnumber", "partnumber"), Attr("name", "name"), Attr("pid", "pid"),
         Attr("pindex", "pindex")]),
      "ThreeMfMesh" := ClassMeta(Some(CoreName("mesh")), []),
      "ThreeMfVertices" := ClassMeta(Some(CoreName("vertices")), []),
      "ThreeMfVertex" := ClassMeta(Some(CoreName("vertex")),
        [Attr("x", "x"), Attr("y", "y"), Attr("z", "z")]),
      "ThreeMfTriangles" := ClassMeta(Some(CoreName("triangles")), []),
      "ThreeMfTriangle" := ClassMeta(Some(CoreName("triangle")),
        [Attr("v1", "v1"), Attr("v2", "v2"), Attr("v3", "v3"), Attr("p1", "p1"),
         Attr("p2", "p2"), Attr("p3", "p3"), Attr("pid", "pid")]),
      "ThreeMfComponents" := ClassMeta(Some(CoreName("components")), []),
      "ThreeMfComponent" := ClassMeta(Some(CoreName("component")),
        [Attr("objectid", "objectid"), TransformAttr]),
      "ThreeMfBaseMaterials" := ClassMeta(Some(CoreName("basematerials")), [Attr("id", "id")]),
      "ThreeMfBase" := ClassMeta(Some(CoreName("base")),
        [Attr("name", "name"), Attr("displaycolor", "displaycolor")]),
      "ThreeMfBuild" := ClassMeta(Some(CoreName("build")), []),
      "ThreeMfItem" := ClassMeta(Some(CoreName("item")),
        [Attr("objectid", "objectid"), TransformAttr, Attr("partnumber", "partnumber")])
    ]
  }

  /** The formatter classes the model refers to by name. */
  function ModelFormatters(): XmlInterfaces.Formatters {
    map["MatrixFormatter" := MatrixFormatter]
  }

  /** Every model class is an element of the core 3MF namespace. */
  lemma ModelClassesInCoreNamespace(cls: string)
    requires cls in ModelRegistry()
    ensures ModelRegistry()[cls].xmlName.Some?
    ensures var n := ModelRegistry()[cls].xmlName.value;
      n.Qualified? && n.q.ns == Some(ThreeDimModelNamespace)
  {
  }

  /** Component and item transforms are written as attributes, through the matrix formatter. */
  lemma TransformThroughMatrixFormatter(e: XmlSerialization.Env, cls: string, id: nat, valuesId: nat, m: Matrix3D)
    requires e.reg == ModelRegistry() && e.fmts == ModelFormatters()
    requires cls == "ThreeMfComponent" || cls == "ThreeMfItem"
    ensures MetasFor(MetaOf(e.reg, cls).fields, "transform") == [TransformAttr]
    ensures XmlSerialization.AttrValue(e, TransformAttr, MatrixVal(id, valuesId, m)) == MatrixFormatter(MatrixVal(id, valuesId, m), e.format)
  {
    MetasForUnique(MetaOf(e.reg, cls).fields, "transform", 1);
  }

  /** A meta's `value` carries no descriptor, so a string value becomes the element's text. */
  lemma MetaValueIsText(e: XmlSerialization.Env, parent: Val, s: string, visited: set<nat>)
    requires e.reg == ModelRegistry()
    requires parent.Obj? && parent.cls == "ThreeMfMeta" && Field("value", Str(s)) in parent.fields
    ensures XmlSerialization.WriteField(e, parent, Field("value", Str(s)), visited) == Ok(XmlSerialization.Emitted([Text(s)], visited))
  {
    MetasForAbsent(GetXmlFieldMeta(e.reg, parent), "value");
  }
}
