/**
 * The XML mapping layer (xml.interfaces.ts): names, the per-class
 * descriptor tables that the XmlName / XmlAttr / XmlElem / XmlIgnore
 * decorators build, and the object graph the serializer walks.
 */
module XmlInterfaces {
  import opened Wrappers
  import opened JsRuntime
  import XmlFormat

  // ---------------------------------------------------------------------
  // Names

  /** IQualifiedName: a local name with an optional namespace (or prefix). */
  datatype QualifiedName = QualifiedName(ns: Option<string>, name: string)

  /** XmlName: a plain string or a qualified name. */
  datatype XmlName = Plain(s: string) | Qualified(q: QualifiedName)

  /** `if (qn.ns)`: a namespace that is present and not empty. */
  predicate HasNs(q: QualifiedName) {
    q.ns.Some? && q.ns.value != ""
  }

  predicate IsNcStart(c: char) { ('A' <= c <= 'Z') || ('a' <= c <= 'z') || c == '_' }

  predicate IsNcChar(c: char) { IsNcStart(c) || IsDigit(c) || c == '.' || c == '-' }

  /** The ASCII approximation of an XML NCName: a letter or '_', then letters, digits, '_', '.', '-'. */
  predicate LooksLikeXmlNcName(s: string) {
    |s| >= 1 && IsNcStart(s[0]) && forall i :: 1 <= i < |s| ==> IsNcChar(s[i])
  }

  /** A NCName never contains the prefix separator. */
  lemma NcNameHasNoColon(s: string)
    requires LooksLikeXmlNcName(s)
    ensures !ContainsChar(s, ':')
  {
  }

  /** `t` reads "prefix:local" with the colon at i and both halves NCNames. */
  predicate SplitsAt(t: string, i: int) {
    0 <= i < |t| && t[i] == ':' && LooksLikeXmlNcName(t[..i]) && LooksLikeXmlNcName(t[i + 1..])
  }

  /** `prefix ? prefix + ":" + name : name`. */
  function ToQualifiedString(name: string, prefix: Option<string>): (r: string)
    ensures prefix.Some? && prefix.value != "" ==> r == prefix.value + ":" + name
    ensures !(prefix.Some? && prefix.value != "") ==> r == name
  {
    if prefix.Some? && prefix.value != "" then prefix.value + ":" + name else name
  }

  /** The parts of an already trimmed string name. */
  function SplitName(s: string): QualifiedName {
    if s == "" then QualifiedName(None, "")
    else
      var i := IndexOf(s, ':', 0);
      if i == -1 then QualifiedName(None, s)
      else if IndexOf(s, ':', i + 1) != -1 then QualifiedName(None, s)
      else
        var prefix, local := s[..i], s[i + 1..];
        if LooksLikeXmlNcName(prefix) && LooksLikeXmlNcName(local) then QualifiedName(Some(prefix), local)
        else QualifiedName(None, s)
  }

  /** A split name has two NCName halves around one colon; an unsplit name is the whole string. */
  lemma SplitNameShape(s: string)
    ensures var r := SplitName(s);
      (r.ns.Some? ==> LooksLikeXmlNcName(r.ns.value) && LooksLikeXmlNcName(r.name) && s == r.ns.value + ":" + r.name)
      && (r.ns.None? ==> r.name == s)
  {
    if s != "" {
      var i := IndexOf(s, ':', 0);
      if i != -1 {
        IndexOfFirst(s, ':', 0);
        assert s == s[..i] + ":" + s[i + 1..];
      }
    }
  }

  /**
   * XmlNameToParts: a qualified name is kept as it is; a string is trimmed and
   * split at its colon when it is exactly "prefix:local" with two NCNames,
   * otherwise the whole trimmed string is the local name.
   */
  function XmlNameToParts(qn: XmlName): QualifiedName {
    match qn
    case Qualified(q) => q
    case Plain(raw) => SplitName(Trim(raw))
  }

  /** What XmlNameToParts promises about the parts of a string name. */
  lemma XmlNameToPartsShape(raw: string)
    ensures var r := XmlNameToParts(Plain(raw));
      (r.ns.Some? ==> LooksLikeXmlNcName(r.ns.value) && LooksLikeXmlNcName(r.name) && Trim(raw) == r.ns.value + ":" + r.name)
      && (r.ns.None? ==> r.name == Trim(raw))
  {
    SplitNameShape(Trim(raw));
  }

  /** A trimmed name is split exactly when it reads "prefix:local" with two NCNames. */
  lemma SplitNameSplits(s: string)
    ensures SplitName(s).ns.Some? <==> exists i :: SplitsAt(s, i)
  {
    if i :| SplitsAt(s, i) {
      NcNameHasNoColon(s[..i]);
      NcNameHasNoColon(s[i + 1..]);
      forall j | 0 <= j < i ensures s[j] != ':' {
        assert s[j] == s[..i][j];
      }
      forall j | i < j < |s| ensures s[j] != ':' {
        assert s[j] == s[i + 1..][j - i - 1];
      }
      IndexOfFirst(s, ':', 0);
      IndexOfFirst(s, ':', i + 1);
      assert IndexOf(s, ':', 0) == i;
      assert IndexOf(s, ':', i + 1) == -1;
    } else {
      SplitNameShape(s);
      var r := SplitName(s);
      if r.ns.Some? {
        var i := |r.ns.value|;
        assert s[..i] == r.ns.value && s[i + 1..] == r.name;
        assert SplitsAt(s, i);
      }
    }
  }

  /** A string name is split exactly when its trimmed text reads "prefix:local" with two NCNames. */
  lemma XmlNameToPartsSplits(raw: string)
    ensures XmlNameToParts(Plain(raw)).ns.Some? <==> exists i :: SplitsAt(Trim(raw), i)
  {
    SplitNameSplits(Trim(raw));
  }

  // ---------------------------------------------------------------------
  // IXmlBuilder

  /** One call on an IXmlBuilder; a run of the serializer is described by the calls it makes, in order. */
  datatype BuilderCall =
    | Dec(version: string, encoding: Option<string>, standalone: Option<bool>)
    | Ele(ns: Option<string>, name: string)
    | Att(ns: Option<string>, name: string, value: string)
    | Text(text: string)
    | End

  /** A builder seen through the IXmlBuilder interface: the calls it has received, in order. */
  class CallLog {
    var calls: seq<BuilderCall>

    constructor ()
      ensures calls == []
    {
      calls := [];
    }
  }

  // ---------------------------------------------------------------------
  // The object graph

  /**
   * A value reachable from the serialized root: primitives, class instances
   * (identity, class name, own enumerable properties in key order) and
   * arrays (identity, items). Dates and bigints are not part of this model.
   */
  datatype Val =
    | Undefined
    | Null
    | Str(s: string)
    | Num(n: Double)
    | Bool(b: bool)
    | Obj(id: nat, cls: string, fields: seq<Field>)
    | Arr(id: nat, items: seq<Val>)

  datatype Field = Field(prop: string, value: Val)

  /** IsPrimitive: string, number or boolean. */
  predicate IsPrimitive(v: Val) { v.Str? || v.Num? || v.Bool? }

  /** IsPrimitiveButString: number or boolean. */
  predicate IsPrimitiveButString(v: Val) { v.Num? || v.Bool? }

  /** `value === null || value === undefined`. */
  predicate IsNullish(v: Val) { v.Undefined? || v.Null? }

  // ---------------------------------------------------------------------
  // Descriptor tables

  datatype FieldKind = AttrKind | ElemKind | NoneKind

  /** A FormatterCtor: builds a formatter from the format options and writes one value. */
  type Formatter = (Val, XmlFormat.FormatOptions) -> Result<string>

  /** The formatter classes, by name; a descriptor refers to its formatter by that name. */
  type Formatters = map<string, Formatter>

  /** FieldMeta: how one property is written. */
  datatype FieldMeta = FieldMeta(kind: FieldKind, prop: string, name: Option<XmlName>, ignore: bool,
                                 formatter: Option<string>)

  /** What the decorators attached to one class: its element name and its field descriptors, in order. */
  datatype ClassMeta = ClassMeta(xmlName: Option<XmlName>, fields: seq<FieldMeta>)

  /** The decorated classes, by constructor name. */
  type Registry = map<string, ClassMeta>

  function MetaOf(reg: Registry, cls: string): ClassMeta {
    if cls in reg then reg[cls] else ClassMeta(None, [])
  }

  /** AddXmlMeta: appends one descriptor to the class's list, creating the list on first use. */
  function AddXmlMeta(reg: Registry, cls: string, meta: FieldMeta): (r: Registry)
    ensures MetaOf(r, cls).fields == MetaOf(reg, cls).fields + [meta]
    ensures MetaOf(r, cls).xmlName == MetaOf(reg, cls).xmlName
    ensures forall c :: c != cls ==> MetaOf(r, c) == MetaOf(reg, c)
  {
    var m := MetaOf(reg, cls);
    reg[cls := ClassMeta(m.xmlName, m.fields + [meta])]
  }

  /** The XmlName class decorator: records the element name of the class. */
  function SetXmlName(reg: Registry, cls: string, name: XmlName): (r: Registry)
    ensures MetaOf(r, cls).xmlName == Some(name)
    ensures MetaOf(r, cls).fields == MetaOf(reg, cls).fields
    ensures forall c :: c != cls ==> MetaOf(r, c) == MetaOf(reg, c)
  {
    reg[cls := ClassMeta(Some(name), MetaOf(reg, cls).fields)]
  }

  /** XmlIgnore: the property is never written. */
  function XmlIgnore(prop: string): (m: FieldMeta)
    ensures m.prop == prop && m.ignore && m.kind == NoneKind
  {
    FieldMeta(NoneKind, prop, None, true, None)
  }

  /** XmlAttr: the property is written as an attribute, under `name` if given, through `formatter` if given. */
  function XmlAttr(prop: string, name: Option<XmlName>, formatter: Option<string>): (m: FieldMeta)
    ensures m.prop == prop && !m.ignore && m.kind == AttrKind && m.name == name && m.formatter == formatter
  {
    FieldMeta(AttrKind, prop, name, false, formatter)
  }

  /**
   * XmlElem: the property is registered as an element, under `name` if
   * given. The serializer acts only on attribute descriptors, so a property
   * whose descriptors are all of this kind is not written at all.
   */
  function XmlElem(prop: string, name: Option<XmlName>): (m: FieldMeta)
    ensures m.prop == prop && !m.ignore && m.kind == ElemKind && m.name == name
  {
    FieldMeta(ElemKind, prop, name, false, None)
  }

  /** GetXmlFieldMeta: the descriptors of a value's class, none for undecorated classes, arrays and primitives. */
  function GetXmlFieldMeta(reg: Registry, v: Val): (r: seq<FieldMeta>)
    ensures !v.Obj? ==> r == []
    ensures v.Obj? ==> r == MetaOf(reg, v.cls).fields
  {
    if v.Obj? then MetaOf(reg, v.cls).fields else []
  }

  /** GetXmlName: the class's element name, when it has a truthy one (an empty string counts as none). */
  function GetXmlName(reg: Registry, v: Val): (r: Option<XmlName>)
    ensures r.Some? ==> v.Obj? && MetaOf(reg, v.cls).xmlName == r && r.value != Plain("")
    ensures v.Obj? && MetaOf(reg, v.cls).xmlName.Some? && MetaOf(reg, v.cls).xmlName.value != Plain("") ==> r.Some?
  {
    if v.Obj? && MetaOf(reg, v.cls).xmlName.Some? && MetaOf(reg, v.cls).xmlName.value != Plain("")
    then MetaOf(reg, v.cls).xmlName else None
  }

  /** `metaByProp.get(prop)`: the descriptors of one property, in registration order. */
  function MetasFor(metas: seq<FieldMeta>, prop: string): seq<FieldMeta> {
    if metas == [] then []
    else MetasFor(metas[..|metas| - 1], prop)
         + (if metas[|metas| - 1].prop == prop then [metas[|metas| - 1]] else [])
  }

  /** The descriptors of a property are exactly the registered descriptors that name it. */
  lemma {:induction false} MetasForMembers(metas: seq<FieldMeta>, prop: string)
    ensures forall m :: m in MetasFor(metas, prop) <==> m in metas && m.prop == prop
    decreases |metas|
  {
    if metas != [] {
      var init := metas[..|metas| - 1];
      MetasForMembers(init, prop);
      assert metas == init + [metas[|metas| - 1]];
    }
  }

  /** A property no descriptor names has no descriptors. */
  lemma {:induction false} MetasForAbsent(metas: seq<FieldMeta>, prop: string)
    requires forall i :: 0 <= i < |metas| ==> metas[i].prop != prop
    ensures MetasFor(metas, prop) == []
    decreases |metas|
  {
    if metas != [] {
      MetasForAbsent(metas[..|metas| - 1], prop);
    }
  }

  /** A property exactly one descriptor names has exactly that descriptor. */
  lemma {:induction false} MetasForUnique(metas: seq<FieldMeta>, prop: string, k: nat)
    requires k < |metas| && metas[k].prop == prop
    requires forall i :: 0 <= i < |metas| && i != k ==> metas[i].prop != prop
    ensures MetasFor(metas, prop) == [metas[k]]
    decreases |metas|
  {
    var init := metas[..|metas| - 1];
    if k == |metas| - 1 {
      MetasForAbsent(init, prop);
    } else {
      MetasForUnique(init, prop, k);
    }
  }

  /** `propMetas.some(m => m.ignore === true || m.kind === "none")`. */
  predicate IsIgnored(metas: seq<FieldMeta>) {
    metas != [] && (metas[0].ignore || metas[0].kind == NoneKind || IsIgnored(metas[1..]))
  }

  /** `if (name)` on an optional XmlName: absent and the empty string are false, a qualified name is true. */
  predicate Truthy(n: Option<XmlName>) {
    n.Some? && n.value != Plain("")
  }

  /** `propMetas.some(m => m.kind === "attr")`. */
  predicate HasAttr(metas: seq<FieldMeta>) {
    metas != [] && (metas[0].kind == AttrKind || HasAttr(metas[1..]))
  }

  /** `some` holds exactly when one of the descriptors satisfies the test. */
  lemma {:induction false} SomeDescriptor(metas: seq<FieldMeta>)
    ensures IsIgnored(metas) <==> exists m :: m in metas && (m.ignore || m.kind == NoneKind)
    ensures HasAttr(metas) <==> exists m :: m in metas && m.kind == AttrKind
  {
    if metas != [] {
      SomeDescriptor(metas[1..]);
      assert metas == [metas[0]] + metas[1..];
    }
  }
}
