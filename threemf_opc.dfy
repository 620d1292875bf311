/**
 * The Open Packaging Conventions parts of a 3MF package (ECMA-376 Part 2):
 * part names, content types, relationship types, the content-types and
 * relationships records with their descriptor tables, and the document that
 * bundles them with the model.
 */
module ThreeMfOpc {
  import opened Wrappers
  import opened JsRuntime
  import opened ThreeMfInterfaces
  import opened XmlInterfaces

  const OpenXmlContentTypesNamespace := "http://schemas.openxmlformats.org/package/2006/content-types"
  const OpenXmlRelationshipsNamespace := "http://schemas.openxmlformats.org/package/2006/relationships"

  // ---------------------------------------------------------------------
  // Content types and part names

  const RelationshipsContentType := "application/vnd.openxmlformats-package.relationships+xml"
  const ModelContentType := "application/vnd.ms-package.3dmanufacturing-3dmodel+xml"

  const RelationshipDirName := "_rels/"
  const Object3dDirName := "3D/"
  const ModelFileName := "3dmodel.model"
  const RelationshipFileName := ".rels"
  const ContentTypeFileName := "[Content_Types].xml"

  /** The three part names a package is written with. */
  lemma PartNames()
    ensures Object3dDirName + ModelFileName == "3D/3dmodel.model"
    ensures RelationshipDirName + RelationshipFileName == "_rels/.rels"
    ensures ContentTypeFileName == "[Content_Types].xml"
  {
  }

  // ---------------------------------------------------------------------
  // Relationship types

  const ThreeDimModelType := "http://schemas.microsoft.com/3dmanufacturing/2013/01/3dmodel"
  const ThumbnailType := "http://schemas.openxmlformats.org/package/2006/relationships/metadata/thumbnail"
  const PrintTicketType := "http://schemas.microsoft.com/3dmanufacturing/2013/01/printticket"
  const MustPreserveType := "http://schemas.openxmlformats.org/package/2006/relationships/mustpreserve"

  /** Known3mfRelationshipTypes.Known. */
  const KnownTypes: set<string> := {ThreeDimModelType, ThumbnailType, PrintTicketType, MustPreserveType}

  /** IsKnown: one of the four common relationship types. */
  predicate IsKnown(t: string) {
    t in KnownTypes
  }

  /** IsThreeDimModel: the relationship to the main model part. */
  predicate IsThreeDimModel(t: string) {
    t == ThreeDimModelType
  }

  /** The known types are exactly the four listed ones, and the model relationship is one of them. */
  lemma KnownTypesExactly(t: string)
    ensures IsKnown(t) <==> t == ThreeDimModelType || t == ThumbnailType || t == PrintTicketType || t == MustPreserveType
    ensures IsThreeDimModel(t) ==> IsKnown(t)
    ensures |KnownTypes| == 4
  {
  }

  // ---------------------------------------------------------------------
  // Records

  datatype ContentType = ContentType(ext: string, ct: string)
  datatype ContentTypes = ContentTypes(items: seq<ContentType>)
  datatype Relationship = Relationship(id: string, kind: Option<string>, target: Option<string>)
  datatype Relationships = Relationships(items: seq<Relationship>)

  /** A package's three parts. */
  datatype Document = Document(contentTypes: ContentTypes, relationships: Relationships, model: Model)

  /** `new ThreeMfContentType(ext, ct)`. */
  function NewContentType(ext: string, ct: string): (c: ContentType)
    ensures c.ext == ext && c.ct == ct
  {
    ContentType(ext, ct)
  }

  /** `new ThreeMfRelationship(id, type, target)`: all three present. */
  function NewRelationship(id: string, kind: string, target: string): (r: Relationship)
    ensures r.id == id && r.kind == Some(kind) && r.target == Some(target)
  {
    Relationship(id, Some(kind), Some(target))
  }

  /** `new ThreeMfDocument(contentTypes, relationships, model)`. */
  function NewDocument(cts: ContentTypes, rs: Relationships, m: Model): (d: Document)
    ensures d.contentTypes == cts && d.relationships == rs && d.model == m
  {
    Document(cts, rs, m)
  }

  // ---------------------------------------------------------------------
  // Descriptor tables

  function CtName(name: string): XmlName {
    Qualified(QualifiedName(Some(OpenXmlContentTypesNamespace), name))
  }

  function RelName(name: string): XmlName {
    Qualified(QualifiedName(Some(OpenXmlRelationshipsNamespace), name))
  }

  /** The element names and attribute descriptors of the OPC classes. */
  function OpcRegistry(): Registry {
    map[
      "ThreeMfContentTypes" := ClassMeta(Some(CtName("Types")), []),
      "ThreeMfContentType" := ClassMeta(Some(CtName("Default")),
        [XmlAttr("ext", Some(CtName("Extension")), None), XmlAttr("ct", Some(CtName("ContentType")), None)]),
      "ThreeMfRelationships" := ClassMeta(Some(RelName("Relationships")), []),
      "ThreeMfRelationship" := ClassMeta(Some(RelName("Relationship")),
        [XmlAttr("id", Some(Plain("Id")), None), XmlAttr("type", Some(Plain("Type")), None),
         XmlAttr("target", Some(Plain("Target")), None)])
    ]
  }

  /**
   * Content-type elements and their attributes are in the content-types
   * namespace; relationship elements are in the relationships namespace and
   * their attributes are unqualified.
   */
  lemma OpcNamespaces(cls: string)
    requires cls in OpcRegistry()
    ensures var meta := OpcRegistry()[cls];
      meta.xmlName.Some? && meta.xmlName.value.Qualified?
      && (cls == "ThreeMfContentTypes" || cls == "ThreeMfContentType" ==>
            meta.xmlName.value.q.ns == Some(OpenXmlContentTypesNamespace)
            && forall m :: m in meta.fields ==>
                 (m.kind == AttrKind && m.name.Some? && m.name.value.Qualified?
                  && m.name.value.q.ns == Some(OpenXmlContentTypesNamespace)))
      && (cls == "ThreeMfRelationships" || cls == "ThreeMfRelationship" ==>
            meta.xmlName.value.q.ns == Some(OpenXmlRelationshipsNamespace)
            && forall m :: m in meta.fields ==> m.kind == AttrKind && m.name.Some? && m.name.value.Plain?)
  {
  }
}
