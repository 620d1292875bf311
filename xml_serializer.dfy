/**
 * The metadata-driven XML serializer (xml.serializer.ts). A first walk over
 * the object graph collects the namespaces of every XML name it meets and
 * gives them prefixes ns0, ns1, ...; a second walk emits builder calls,
 * attributes of an element before anything else inside it.
 *
 * The functions below state what each walk produces; the class
 * XmlSerializer performs the walks step by step and is proved to produce
 * exactly that.
 */
module XmlSerialization {
  import opened Wrappers
  import opened JsRuntime
  import opened XmlInterfaces
  import XmlFormat

  // ---------------------------------------------------------------------
  // The namespace table (a Map<string, string> in insertion order)

  type NsTable = seq<(string, string)>

  /** `map.get(key)`. */
  function NsGet(t: NsTable, key: string): Option<string> {
    if t == [] then None else if t[0].0 == key then Some(t[0].1) else NsGet(t[1..], key)
  }

  /** `get` finds nothing exactly when no binding has the key, and otherwise returns a bound value. */
  lemma {:induction false} NsGetFinds(t: NsTable, key: string)
    ensures NsGet(t, key).None? <==> forall i :: 0 <= i < |t| ==> t[i].0 != key
    ensures NsGet(t, key).Some? ==> exists i :: 0 <= i < |t| && t[i] == (key, NsGet(t, key).value)
  {
    if t != [] && t[0].0 != key {
      NsGetFinds(t[1..], key);
      if NsGet(t, key).Some? {
        var i :| 0 <= i < |t[1..]| && t[1..][i] == (key, NsGet(t, key).value);
        assert t[i + 1] == t[1..][i];
      }
    }
  }

  /** `map.set(key, value)`: replaces the binding of `key` in place, or appends one. */
  function NsSet(t: NsTable, key: string, value: string): (r: NsTable)
    ensures NsGet(t, key).None? ==> r == t + [(key, value)]
    ensures NsGet(r, key) == Some(value)
  {
    if t == [] then [(key, value)]
    else if t[0].0 == key then [(key, value)] + t[1..]
    else [t[0]] + NsSet(t[1..], key, value)
  }

  /** The k-th generated prefix, "ns" followed by the decimal digits of k. */
  function NsName(k: nat): string {
    "ns" + NatToString(k)
  }

  /** ns0, ns1, ..., ns(n-1). */
  function PrefixSeq(n: nat): (r: seq<string>)
    ensures |r| == n
  {
    if n == 0 then [] else PrefixSeq(n - 1) + [NsName(n - 1)]
  }

  /** The generated (non-default) prefixes of a table, in insertion order. */
  function Prefixes(t: NsTable): seq<string> {
    if t == [] then [] else Prefixes(t[..|t| - 1]) + (if t[|t| - 1].1 == "xmlns" then [] else [t[|t| - 1].1])
  }

  predicate KeysUnique(t: NsTable) {
    forall i, j :: 0 <= i < j < |t| ==> t[i].0 != t[j].0
  }

  predicate KeysLower(t: NsTable) {
    forall i :: 0 <= i < |t| ==> ToLower(t[i].0) == t[i].0
  }

  /**
   * The serializer's namespace invariant: keys are lowercased and bound once,
   * and the non-default prefixes are exactly ns0 .. ns(count-1) in the order
   * their namespaces were first met.
   */
  predicate NsValid(t: NsTable, count: nat) {
    KeysUnique(t) && KeysLower(t) && Prefixes(t) == PrefixSeq(count)
  }

  lemma NsNameInjective(a: nat, b: nat)
    ensures NsName(a) == NsName(b) ==> a == b
  {
    if NsName(a) == NsName(b) {
      assert NsName(a)[2..] == NatToString(a) && NsName(b)[2..] == NatToString(b);
      NatToStringInjective(a, b);
    }
  }

  /** No generated prefix is ever "xmlns". */
  lemma NsNameNotDefault(k: nat)
    ensures NsName(k) != "xmlns"
  {
    assert NsName(k)[0] == 'n' && "xmlns"[0] == 'x';
  }

  /** Every value of a valid table is "xmlns" or a prefix below `count`; none is ns(count) or later. */
  lemma {:induction false} ValuesBelow(t: NsTable, count: nat)
    requires Prefixes(t) == PrefixSeq(count)
    ensures forall i, k :: 0 <= i < |t| && k >= count ==> t[i].1 != NsName(k)
    ensures forall i :: 0 <= i < |t| ==> t[i].1 != ""
    decreases |t|
  {
    if t != [] {
      var t', last := t[..|t| - 1], t[|t| - 1];
      if last.1 == "xmlns" {
        ValuesBelow(t', count);
        forall k | k >= count ensures last.1 != NsName(k) { NsNameNotDefault(k); }
      } else {
        var p, q := Prefixes(t'), PrefixSeq(count - 1);
        assert p + [last.1] == PrefixSeq(count) == q + [NsName(count - 1)];
        assert p == (p + [last.1])[..|p|] == (q + [NsName(count - 1)])[..|q|] == q;
        assert last.1 == (p + [last.1])[|p|] == NsName(count - 1);
        ValuesBelow(t', count - 1);
        forall k | k >= count ensures last.1 != NsName(k) { NsNameInjective(count - 1, k); }
      }
      forall i, k | 0 <= i < |t| && k >= count ensures t[i].1 != NsName(k) && t[i].1 != "" {
        if i < |t| - 1 { assert t[i] == t'[i]; }
      }
    }
  }

  // ---------------------------------------------------------------------
  // _assignNamespace

  datatype NsState = NsState(table: NsTable, count: nat)

  /** Binds `key` unless it is bound already: to "xmlns", or to the next generated prefix. */
  function Bind(st: NsState, key: string, isDefault: bool): (r: NsState)
    ensures NsGet(st.table, key).Some? ==> r == st
  {
    if NsGet(st.table, key).Some? then st
    else if isDefault then NsState(st.table + [(key, "xmlns")], st.count)
    else NsState(st.table + [(key, NsName(st.count))], st.count + 1)
  }

  /**
   * `_assignNamespace(qn, prefix)`; `isDefault` stands for the prefix "xmlns",
   * the only prefix any caller passes. A name with a namespace binds the
   * lowercased namespace; a default binding of a name without namespace
   * binds the lowercased name itself.
   */
  function Assign(st: NsState, qn: XmlName, isDefault: bool): NsState {
    var nq := XmlNameToParts(qn);
    if HasNs(nq) then Bind(st, ToLower(nq.ns.value), isDefault)
    else if isDefault then Bind(st, ToLower(nq.name), true)
    else st
  }

  /** The non-default assignments of a list of names, in order. */
  function AssignAll(st: NsState, names: seq<XmlName>): NsState {
    if names == [] then st else Assign(AssignAll(st, names[..|names| - 1]), names[|names| - 1], false)
  }

  lemma AssignAllSnoc(st: NsState, names: seq<XmlName>, n: XmlName)
    ensures AssignAll(st, names + [n]) == Assign(AssignAll(st, names), n, false)
  {
    assert (names + [n])[..|names|] == names;
  }

  lemma {:induction false} AssignAllAppend(st: NsState, a: seq<XmlName>, b: seq<XmlName>)
    ensures AssignAll(st, a + b) == AssignAll(AssignAll(st, a), b)
    decreases |b|
  {
    if b == [] {
      assert a + b == a;
    } else {
      assert (a + b)[..|a + b| - 1] == a + b[..|b| - 1];
      AssignAllAppend(st, a, b[..|b| - 1]);
    }
  }

  lemma PrefixesSnoc(t: NsTable, e: (string, string))
    ensures Prefixes(t + [e]) == Prefixes(t) + (if e.1 == "xmlns" then [] else [e.1])
  {
    assert (t + [e])[..|t + [e]| - 1] == t;
  }

  /** A binding keeps the invariant, keeps every earlier binding, and adds at most one binding at the end. */
  lemma BindValid(st: NsState, key: string, isDefault: bool)
    requires NsValid(st.table, st.count) && ToLower(key) == key
    ensures var st' := Bind(st, key, isDefault);
      NsValid(st'.table, st'.count)
      && st.table <= st'.table && st.count <= st'.count
      && NsGet(st'.table, key).Some?
  {
    if NsGet(st.table, key).None? {
      var e := (key, if isDefault then "xmlns" else NsName(st.count));
      KeysAppend(st.table, e);
      PrefixesSnoc(st.table, e);
      if !isDefault {
        NsNameNotDefault(st.count);
      }
      assert (st.table + [e])[|st.table|] == e;
      NsGetFinds(st.table + [e], key);
    }
  }

  /** A new key keeps the keys unique and lowercased. */
  lemma KeysAppend(t: NsTable, e: (string, string))
    requires KeysUnique(t) && KeysLower(t) && ToLower(e.0) == e.0 && NsGet(t, e.0).None?
    ensures KeysUnique(t + [e]) && KeysLower(t + [e])
  {
    NsGetFinds(t, e.0);
  }

  lemma AssignValid(st: NsState, qn: XmlName, isDefault: bool)
    requires NsValid(st.table, st.count)
    ensures var st' := Assign(st, qn, isDefault);
      NsValid(st'.table, st'.count) && st.table <= st'.table && st.count <= st'.count
  {
    var nq := XmlNameToParts(qn);
    if HasNs(nq) {
      ToLowerIdempotent(nq.ns.value);
      BindValid(st, ToLower(nq.ns.value), isDefault);
    } else if isDefault {
      ToLowerIdempotent(nq.name);
      BindValid(st, ToLower(nq.name), true);
    }
  }

  lemma {:induction false} AssignAllValid(st: NsState, names: seq<XmlName>)
    requires NsValid(st.table, st.count)
    ensures var st' := AssignAll(st, names);
      NsValid(st'.table, st'.count) && st.table <= st'.table && st.count <= st'.count
    decreases |names|
  {
    if names != [] {
      AssignAllValid(st, names[..|names| - 1]);
      AssignValid(AssignAll(st, names[..|names| - 1]), names[|names| - 1], false);
    }
  }

  // ---------------------------------------------------------------------
  // Field descriptors of one object

  /** Does the property carry an attribute descriptor? */
  predicate IsAttrField(metas: seq<FieldMeta>, f: Field) {
    HasAttr(MetasFor(metas, f.prop))
  }

  /** Is the property skipped by both walks: absent, or marked ignored? */
  predicate Skipped(metas: seq<FieldMeta>, f: Field) {
    IsNullish(f.value) || (MetasFor(metas, f.prop) != [] && IsIgnored(MetasFor(metas, f.prop)))
  }

  function AttrFields(fields: seq<Field>, metas: seq<FieldMeta>): (r: seq<Field>)
    ensures forall f :: f in r ==> f in fields
    ensures forall k :: 0 <= k < |r| ==> IsAttrField(metas, r[k])
  {
    if fields == [] then []
    else AttrFields(fields[..|fields| - 1], metas)
         + (if IsAttrField(metas, fields[|fields| - 1]) then [fields[|fields| - 1]] else [])
  }

  function OtherFields(fields: seq<Field>, metas: seq<FieldMeta>): (r: seq<Field>)
    ensures forall f :: f in r ==> f in fields
    ensures forall k :: 0 <= k < |r| ==> !IsAttrField(metas, r[k])
  {
    if fields == [] then []
    else OtherFields(fields[..|fields| - 1], metas)
         + (if !IsAttrField(metas, fields[|fields| - 1]) then [fields[|fields| - 1]] else [])
  }

  /** The keys in the order the emission walk visits them: the stable sort that puts attribute properties first. */
  function AttrFirst(fields: seq<Field>, metas: seq<FieldMeta>): seq<Field> {
    AttrFields(fields, metas) + OtherFields(fields, metas)
  }

  lemma {:induction false} PartitionMultiset(fields: seq<Field>, metas: seq<FieldMeta>)
    ensures multiset(AttrFields(fields, metas)) + multiset(OtherFields(fields, metas)) == multiset(fields)
    decreases |fields|
  {
    if fields != [] {
      var init, last := fields[..|fields| - 1], fields[|fields| - 1];
      PartitionMultiset(init, metas);
      assert fields == init + [last];
      PartitionSnoc(init, last, metas);
    }
  }

  /** One more field lands in exactly one of the two parts. */
  lemma PartitionSnoc(init: seq<Field>, last: Field, metas: seq<FieldMeta>)
    ensures multiset(AttrFields(init + [last], metas)) + multiset(OtherFields(init + [last], metas))
      == multiset(AttrFields(init, metas)) + multiset(OtherFields(init, metas)) + multiset{last}
  {
    var fields := init + [last];
    assert fields[..|fields| - 1] == init;
    var a, o := AttrFields(init, metas), OtherFields(init, metas);
    if IsAttrField(metas, last) {
      assert AttrFields(fields, metas) == a + [last];
      assert multiset(a + [last]) == multiset(a) + multiset{last};
    } else {
      assert OtherFields(fields, metas) == o + [last];
      assert multiset(o + [last]) == multiset(o) + multiset{last};
    }
  }

  /** The sort is a permutation that puts every attribute property before every other property. */
  lemma AttrFirstSorted(fields: seq<Field>, metas: seq<FieldMeta>)
    ensures multiset(AttrFirst(fields, metas)) == multiset(fields)
    ensures var r := AttrFirst(fields, metas);
      forall i, j :: 0 <= i < j < |r| && IsAttrField(metas, r[j]) ==> IsAttrField(metas, r[i])
  {
    PartitionMultiset(fields, metas);
  }

  // ---------------------------------------------------------------------
  // The gathering walk

  /** The names one object contributes to the namespace table: its class name, then its properties' descriptor names. */
  function FieldNames(fields: seq<Field>, metas: seq<FieldMeta>): seq<XmlName> {
    if fields == [] then []
    else
      var f := fields[|fields| - 1];
      FieldNames(fields[..|fields| - 1], metas)
      + (if Skipped(metas, f) then [] else MetaNames(MetasFor(metas, f.prop)))
  }

  /** The truthy descriptor names, in order. */
  function MetaNames(ms: seq<FieldMeta>): seq<XmlName> {
    if ms == [] then []
    else MetaNames(ms[..|ms| - 1]) + (if Truthy(ms[|ms| - 1].name) then [ms[|ms| - 1].name.value] else [])
  }

  /** The properties whose values the gathering walk visits next. */
  function ToVisit(fields: seq<Field>, metas: seq<FieldMeta>): (r: seq<Field>)
    ensures forall f :: f in r ==> f in fields
  {
    if fields == [] then []
    else ToVisit(fields[..|fields| - 1], metas)
         + (if Skipped(metas, fields[|fields| - 1]) then [] else [fields[|fields| - 1]])
  }

  datatype Gathered = Gathered(names: seq<XmlName>, visited: set<nat>)

  /** Puts `names` in front of the names of a successful walk. */
  function PrependNames(names: seq<XmlName>, r: Result<Gathered>): Result<Gathered> {
    if r.Err? then r else Ok(Gathered(names + r.value.names, r.value.visited))
  }

  lemma PrependNamesAssoc(a: seq<XmlName>, b: seq<XmlName>, r: Result<Gathered>)
    ensures PrependNames(a, PrependNames(b, r)) == PrependNames(a + b, r)
  {
    if r.Ok? {
      assert a + (b + r.value.names) == (a + b) + r.value.names;
    }
  }

  lemma PrependNamesNil(r: Result<Gathered>)
    ensures PrependNames([], r) == r
  {
    if r.Ok? {
      assert [] + r.value.names == r.value.names;
    }
  }

  /** The names `_gatherNamespaces` assigns, in order, and the identities it has then visited. */
  function Gather(reg: Registry, v: Val, visited: set<nat>): Result<Gathered>
    decreases v, 1, 0
  {
    match v
    case Arr(id, items) =>
      if id in visited then Ok(Gathered([], visited)) else GatherItems(reg, v, items, visited + {id})
    case Obj(id, cls, fields) =>
      if id in visited then Ok(Gathered([], visited))
      else
        var metas := GetXmlFieldMeta(reg, v);
        var q := GetXmlName(reg, v);
        var own := (if q.Some? then [q.value] else []) + FieldNames(fields, metas);
        PrependNames(own, GatherFields(reg, v, ToVisit(fields, metas), visited + {id}))
    case _ => Err("Invalid value used in weak set")
  }

  function GatherItems(reg: Registry, parent: Val, items: seq<Val>, visited: set<nat>): Result<Gathered>
    requires parent.Arr? && forall w :: w in items ==> w in parent.items
    decreases parent, 0, |items|
  {
    if items == [] then Ok(Gathered([], visited))
    else
      var w := items[0];
      assert w in parent.items;
      if IsPrimitive(w) then GatherItems(reg, parent, items[1..], visited)
      else
        var s := Gather(reg, w, visited);
        if s.Err? then s else PrependNames(s.value.names, GatherItems(reg, parent, items[1..], s.value.visited))
  }

  lemma GatherItemsStep(reg: Registry, parent: Val, items: seq<Val>, visited: set<nat>)
    requires parent.Arr? && items != [] && forall w :: w in items ==> w in parent.items
    ensures GatherItems(reg, parent, items, visited)
            == if IsPrimitive(items[0]) then GatherItems(reg, parent, items[1..], visited)
               else
                 var s := Gather(reg, items[0], visited);
                 if s.Err? then s else PrependNames(s.value.names, GatherItems(reg, parent, items[1..], s.value.visited))
  {
  }

  function GatherFields(reg: Registry, parent: Val, fs: seq<Field>, visited: set<nat>): Result<Gathered>
    requires parent.Obj? && forall f :: f in fs ==> f in parent.fields
    decreases parent, 0, |fs|
  {
    if fs == [] then Ok(Gathered([], visited))
    else
      var f := fs[0];
      assert f in parent.fields;
      if IsPrimitive(f.value) then GatherFields(reg, parent, fs[1..], visited)
      else
        var s := Gather(reg, f.value, visited);
        if s.Err? then s else PrependNames(s.value.names, GatherFields(reg, parent, fs[1..], s.value.visited))
  }

  /** One more property adds its descriptor names unless it is skipped. */
  lemma FieldNamesSnoc(fields: seq<Field>, i: nat, metas: seq<FieldMeta>, own: seq<XmlName>)
    requires i < |fields|
    ensures own + FieldNames(fields[..i + 1], metas)
            == own + FieldNames(fields[..i], metas)
               + (if Skipped(metas, fields[i]) then [] else MetaNames(MetasFor(metas, fields[i].prop)))
  {
    assert fields[..i + 1][..i] == fields[..i] && fields[..i + 1][i] == fields[i];
    var a := FieldNames(fields[..i], metas);
    var b := if Skipped(metas, fields[i]) then [] else MetaNames(MetasFor(metas, fields[i].prop));
    assert FieldNames(fields[..i + 1], metas) == a + b;
    assert own + (a + b) == own + a + b;
  }

  /** One more property is visited unless it is skipped. */
  lemma ToVisitSnoc(fields: seq<Field>, i: nat, metas: seq<FieldMeta>)
    requires i < |fields|
    ensures ToVisit(fields[..i + 1], metas)
            == ToVisit(fields[..i], metas) + (if Skipped(metas, fields[i]) then [] else [fields[i]])
  {
    assert fields[..i + 1][..i] == fields[..i] && fields[..i + 1][i] == fields[i];
  }

  lemma MetaNamesSnoc(pm: seq<FieldMeta>, j: nat, before: seq<XmlName>)
    requires j < |pm|
    ensures before + MetaNames(pm[..j + 1])
            == before + MetaNames(pm[..j]) + (if Truthy(pm[j].name) then [pm[j].name.value] else [])
  {
    assert pm[..j + 1][..j] == pm[..j] && pm[..j + 1][j] == pm[j];
  }

  lemma GatherFieldsStep(reg: Registry, parent: Val, fs: seq<Field>, visited: set<nat>)
    requires parent.Obj? && fs != [] && forall f :: f in fs ==> f in parent.fields
    ensures GatherFields(reg, parent, fs, visited)
            == if IsPrimitive(fs[0].value) then GatherFields(reg, parent, fs[1..], visited)
               else
                 var s := Gather(reg, fs[0].value, visited);
                 if s.Err? then s else PrependNames(s.value.names, GatherFields(reg, parent, fs[1..], s.value.visited))
  {
  }

  // ---------------------------------------------------------------------
  // The emission walk

  /** What the emission walk reads but never changes. */
  datatype Env = Env(reg: Registry, fmts: Formatters, format: XmlFormat.FormatOptions, ns: NsTable)

  /** `_getPrefix`: the prefix bound to the name's namespace, none for the default namespace or no namespace. */
  function GetPrefix(t: NsTable, qn: QualifiedName): (r: Option<string>)
    ensures r.Some? ==> HasNs(qn) && r.value != "xmlns" && NsGet(t, ToLower(qn.ns.value)) == r
    ensures HasNs(qn) && NsGet(t, ToLower(qn.ns.value)).Some? && NsGet(t, ToLower(qn.ns.value)).value != "xmlns" ==> r.Some?
  {
    if HasNs(qn) then
      var p := NsGet(t, ToLower(qn.ns.value));
      if p == Some("xmlns") then None else p
    else None
  }

  /** The written name of an element or attribute: its local name, prefixed when its namespace has a prefix. */
  function WrittenName(t: NsTable, n: XmlName): string {
    var parts := XmlNameToParts(n);
    ToQualifiedString(parts.name, GetPrefix(t, parts))
  }

  /**
   * The text of an attribute value: numbers through the number formatter, a
   * field formatter overriding that, otherwise the value's own text.
   */
  function AttrValue(e: Env, m: FieldMeta, value: Val): Result<string> {
    var num := if value.Num? then Some(XmlFormat.FormatNumber(value.n, e.format)) else None;
    if num.Some? && num.value.Err? then Err(num.value.error)
    else if m.formatter.Some? then
      if m.formatter.value in e.fmts then e.fmts[m.formatter.value](value, e.format)
      else Err("formatter is not a constructor")
    else if num.Some? then Ok(num.value.value)
    else
      match value
      case Str(s) => Ok(s)
      case Bool(b) => Ok(BoolText(b))
      case Arr(_, _) => ElementText(value)
      case _ => Err("value without a text form")
  }

  function BoolText(b: bool): string { if b then "true" else "false" }

  /**
   * Number.prototype.toString where the exact value decides the text: NaN,
   * the infinities and the integers below 1e21 in magnitude.
   */
  function NumberText(x: Double): (r: Option<string>)
    ensures x.Finite? && r.Some? ==> x.v == x.v.Floor as real && r.value == IntToString(x.v.Floor)
    ensures !x.Finite? ==> r.Some?
  {
    match x
    case NaN => Some("NaN")
    case PosInf => Some("Infinity")
    case NegInf => Some("-Infinity")
    case Finite(v) =>
      if v == v.Floor as real && -1000000000000000000000.0 < v < 1000000000000000000000.0 then Some(IntToString(v.Floor))
      else None
  }

  /**
   * The text of a value inside Array.prototype.toString: null and undefined
   * are empty, an array joins the texts of its items with commas.
   */
  function ElementText(v: Val): Result<string>
    decreases v, if v.Arr? then |v.items| + 1 else 0
  {
    match v
    case Undefined => Ok("")
    case Null => Ok("")
    case Str(s) => Ok(s)
    case Bool(b) => Ok(BoolText(b))
    case Num(n) => if NumberText(n).Some? then Ok(NumberText(n).value) else Err("number without an exact text")
    case Obj(_, _, _) => Err("object without a text form")
    case Arr(_, _) =>
      var ts := ItemTexts(v, 0);
      if ts.Err? then Err(ts.error) else Ok(Join(ts.value, ","))
  }

  /** The texts of an array's items from index k on, or the first failure among them. */
  function ItemTexts(v: Val, k: nat): (r: Result<seq<string>>)
    requires v.Arr? && k <= |v.items|
    ensures r.Ok? ==> |r.value| == |v.items| - k
    decreases v, |v.items| - k
  {
    if k == |v.items| then Ok([])
    else
      var first := ElementText(v.items[k]);
      var rest := ItemTexts(v, k + 1);
      if first.Err? then Err(first.error)
      else if rest.Err? then rest
      else Ok([first.value] + rest.value)
  }

  /** The texts of a string array are its strings. */
  lemma {:induction false} StringItemTexts(id: nat, parts: seq<string>, k: nat)
    requires k <= |parts|
    ensures ItemTexts(Arr(id, seq(|parts|, i requires 0 <= i < |parts| => Str(parts[i]))), k) == Ok(parts[k..])
    decreases |parts| - k
  {
    var v := Arr(id, seq(|parts|, i requires 0 <= i < |parts| => Str(parts[i])));
    if k < |parts| {
      StringItemTexts(id, parts, k + 1);
      assert v.items[k] == Str(parts[k]);
      assert [parts[k]] + parts[k + 1..] == parts[k..];
    }
  }

  /**
   * The cases of an attribute value: a number the number formatter rejects
   * is an error even under a field formatter, and so is a formatter that
   * is not registered; without a formatter a value is written as its
   * `toString` gives it, and an object or a nullish value has no text.
   */
  lemma AttrValueCases(e: Env, m: FieldMeta, value: Val)
    ensures var r := AttrValue(e, m, value);
      (value.Num? && XmlFormat.FormatNumber(value.n, e.format).Err? ==> r.Err?)
      && (m.formatter.Some? && m.formatter.value !in e.fmts ==> r.Err?)
      && (m.formatter.None? && value.Num? ==> r == XmlFormat.FormatNumber(value.n, e.format))
      && (m.formatter.None? && value.Str? ==> r == Ok(value.s))
      && (m.formatter.None? && value.Bool? ==> r == Ok(if value.b then "true" else "false"))
      && (m.formatter.None? && value.Arr? ==> r == ElementText(value))
      && (m.formatter.None? && (value.Obj? || value.Undefined? || value.Null?) ==> r.Err?)
  {
  }

  /**
   * An array of strings without a formatter is written as their comma join,
   * so splitting the attribute on commas gives the strings back when none
   * holds a comma.
   */
  lemma StringArraySplits(e: Env, m: FieldMeta, id: nat, parts: seq<string>)
    requires m.formatter.None?
    requires |parts| >= 1 && forall k :: 0 <= k < |parts| ==> !ContainsChar(parts[k], ',')
    ensures var r := AttrValue(e, m, Arr(id, seq(|parts|, i requires 0 <= i < |parts| => Str(parts[i]))));
      r.Ok? && Split(r.value, ',') == parts
  {
    StringItemTexts(id, parts, 0);
    assert parts[0..] == parts;
    SplitJoin(parts, ',');
  }

  /** Nested arrays flatten: an array holding an array writes the inner items between the outer ones. */
  lemma NestedArrayText(a: string, b: string, c: string)
    ensures ElementText(Arr(0, [Arr(1, [Str(a), Str(b)]), Str(c)])) == Ok(a + "," + b + "," + c)
  {
    var inner := Arr(1, [Str(a), Str(b)]);
    assert ItemTexts(inner, 2) == Ok([]);
    assert ElementText(inner.items[1]) == Ok(b) && [b] + [] == [b];
    assert ItemTexts(inner, 1) == Ok([b]);
    assert ElementText(inner.items[0]) == Ok(a) && [a] + [b] == [a, b];
    assert ItemTexts(inner, 0) == Ok([a, b]);
    assert Join([a, b], ",") == a + "," + b by { assert [a, b][..1] == [a]; }
    var outer := Arr(0, [inner, Str(c)]);
    assert ItemTexts(outer, 2) == Ok([]);
    assert ElementText(outer.items[1]) == Ok(c) && [c] + [] == [c];
    assert ItemTexts(outer, 1) == Ok([c]);
    assert ElementText(outer.items[0]) == Ok(a + "," + b);
    assert [a + "," + b] + [c] == [a + "," + b, c];
    assert ItemTexts(outer, 0) == Ok([a + "," + b, c]);
    assert Join([a + "," + b, c], ",") == a + "," + b + "," + c by { assert [a + "," + b, c][..1] == [a + "," + b]; }
  }

  /** Null and undefined items of an array are written as empty texts between the commas. */
  lemma NullishItemsText(a: string)
    ensures ElementText(Arr(0, [Null, Str(a), Undefined])) == Ok("," + a + ",")
  {
    var v := Arr(0, [Null, Str(a), Undefined]);
    assert ItemTexts(v, 3) == Ok([]);
    assert ElementText(v.items[2]) == Ok("");
    assert [""] + [] == [""];
    assert ItemTexts(v, 2) == Ok([""]);
    assert ElementText(v.items[1]) == Ok(a);
    assert ElementText(v.items[0]) == Ok("");
    assert [a] + [""] == [a, ""];
    assert ItemTexts(v, 1) == Ok([a, ""]);
    assert [""] + [a, ""] == ["", a, ""];
    assert ItemTexts(v, 0) == Ok(["", a, ""]);
    assert Join(["", a, ""], ",") == "," + a + "," by {
      assert ["", a][..1] == [""];
      assert Join(["", a], ",") == "," + a;
      assert ["", a, ""][..2] == ["", a];
    }
  }

  /** The name a descriptor writes under: its own, or the lowercased property name. */
  function MetaName(m: FieldMeta): XmlName {
    if m.name.Some? then m.name.value else Plain(ToLower(m.prop))
  }

  /** The attribute call of one descriptor: only attribute descriptors with a name and a non-empty value write. */
  function AttrCall(e: Env, m: FieldMeta, value: Val): (r: Result<seq<BuilderCall>>)
    ensures r.Ok? ==> |r.value| <= 1 && forall i :: 0 <= i < |r.value| ==> r.value[i].Att?
    ensures m.kind != AttrKind ==> r == Ok([])
  {
    if MetaName(m) == Plain("") || m.kind != AttrKind then Ok([])
    else
      var v := AttrValue(e, m, value);
      if v.Err? then Err(v.error)
      else if v.value == "" then Ok([])
      else Ok([Att(None, WrittenName(e.ns, MetaName(m)), v.value)])
  }

  function PrependCalls(out: seq<BuilderCall>, r: Result<seq<BuilderCall>>): Result<seq<BuilderCall>> {
    if r.Err? then r else Ok(out + r.value)
  }

  /** The attribute calls of one property's descriptors, in order. */
  function AttrCalls(e: Env, ms: seq<FieldMeta>, value: Val): (r: Result<seq<BuilderCall>>)
    ensures r.Ok? ==> forall i :: 0 <= i < |r.value| ==> r.value[i].Att?
  {
    if ms == [] then Ok([])
    else
      var h := AttrCall(e, ms[0], value);
      if h.Err? then h else PrependCalls(h.value, AttrCalls(e, ms[1..], value))
  }

  datatype Emitted = Emitted(calls: seq<BuilderCall>, visited: set<nat>)

  function PrependEmitted(out: seq<BuilderCall>, r: Result<Emitted>): Result<Emitted> {
    if r.Err? then r else Ok(Emitted(out + r.value.calls, r.value.visited))
  }

  /** `_writeObject`: the calls written for one value reached through the graph. */
  function Write(e: Env, v: Val, visited: set<nat>): Result<Emitted>
    decreases v, 2, 0
  {
    match v
    case Arr(id, items) =>
      if id in visited then Ok(Emitted([], visited)) else WriteItems(e, v, items, visited + {id})
    case Obj(id, cls, fields) =>
      if id in visited then Ok(Emitted([], visited)) else Element(e, v, visited + {id})
    case _ => Err("Invalid value used in weak set")
  }

  /** The element of an object met for the first time: nothing when its class has no element name. */
  function Element(e: Env, v: Val, visited: set<nat>): Result<Emitted>
    requires v.Obj?
    decreases v, 1, 1
  {
    var q := GetXmlName(e.reg, v);
    if q.None? then Ok(Emitted([], visited))
    else
      var r := WriteContent(e, v, visited);
      if r.Err? then r
      else Ok(Emitted([Ele(None, WrittenName(e.ns, q.value))] + r.value.calls + [End], r.value.visited))
  }

  function WriteItems(e: Env, parent: Val, items: seq<Val>, visited: set<nat>): Result<Emitted>
    requires parent.Arr? && forall w :: w in items ==> w in parent.items
    decreases parent, 1, |items|
  {
    if items == [] then Ok(Emitted([], visited))
    else
      var w := items[0];
      assert w in parent.items;
      if IsPrimitiveButString(w) then WriteItems(e, parent, items[1..], visited)
      else if w.Str? then PrependEmitted([Text(w.s)], WriteItems(e, parent, items[1..], visited))
      else
        var s := Write(e, w, visited);
        if s.Err? then s else PrependEmitted(s.value.calls, WriteItems(e, parent, items[1..], s.value.visited))
  }

  /** `_writeObjectContent`: the calls for the properties of one object, attribute properties first. */
  function WriteContent(e: Env, v: Val, visited: set<nat>): Result<Emitted>
    requires v.Obj?
    decreases v, 1, 0
  {
    WriteFields(e, v, AttrFirst(v.fields, GetXmlFieldMeta(e.reg, v)), visited)
  }

  function WriteFields(e: Env, parent: Val, keys: seq<Field>, visited: set<nat>): Result<Emitted>
    requires parent.Obj? && forall f :: f in keys ==> f in parent.fields
    decreases parent, 0, |keys|
  {
    if keys == [] then Ok(Emitted([], visited))
    else
      var s := WriteField(e, parent, keys[0], visited);
      if s.Err? then s else PrependEmitted(s.value.calls, WriteFields(e, parent, keys[1..], s.value.visited))
  }

  /** One property: skipped, attributes, text, or a nested object. */
  function WriteField(e: Env, parent: Val, f: Field, visited: set<nat>): Result<Emitted>
    requires parent.Obj? && f in parent.fields
    decreases parent, 0, 0
  {
    var pm := MetasFor(GetXmlFieldMeta(e.reg, parent), f.prop);
    if IsNullish(f.value) then Ok(Emitted([], visited))
    else if pm != [] then
      if IsIgnored(pm) then Ok(Emitted([], visited))
      else
        var a := AttrCalls(e, pm, f.value);
        if a.Err? then Err(a.error) else Ok(Emitted(a.value, visited))
    else if IsPrimitiveButString(f.value) then Ok(Emitted([], visited))
    else if f.value.Str? then Ok(Emitted([Text(f.value.s)], visited))
    else Write(e, f.value, visited)
  }

  lemma PrependEmittedAssoc(a: seq<BuilderCall>, b: seq<BuilderCall>, r: Result<Emitted>)
    ensures PrependEmitted(a, PrependEmitted(b, r)) == PrependEmitted(a + b, r)
  {
    if r.Ok? {
      assert a + (b + r.value.calls) == (a + b) + r.value.calls;
    }
  }

  lemma PrependEmittedNil(r: Result<Emitted>)
    ensures PrependEmitted([], r) == r
  {
    if r.Ok? {
      assert [] + r.value.calls == r.value.calls;
    }
  }

  lemma PrependCallsNil(r: Result<seq<BuilderCall>>)
    ensures PrependCalls([], r) == r
  {
    if r.Ok? {
      assert [] + r.value == r.value;
    }
  }

  lemma PrependCallsAssoc(a: seq<BuilderCall>, b: seq<BuilderCall>, r: Result<seq<BuilderCall>>)
    ensures PrependCalls(a, PrependCalls(b, r)) == PrependCalls(a + b, r)
  {
    if r.Ok? {
      assert a + (b + r.value) == (a + b) + r.value;
    }
  }

  /** The attribute calls of the descriptors from index j on. */
  function AttrCallsFrom(e: Env, ms: seq<FieldMeta>, j: nat, value: Val): (r: Result<seq<BuilderCall>>)
    requires j <= |ms|
    decreases |ms| - j
  {
    if j == |ms| then Ok([])
    else
      var h := AttrCall(e, ms[j], value);
      if h.Err? then h else PrependCalls(h.value, AttrCallsFrom(e, ms, j + 1, value))
  }

  /** One descriptor further: an error ends the attribute calls, otherwise its calls join those already written. */
  lemma AttrCallsStep(e: Env, ms: seq<FieldMeta>, j: nat, value: Val, out: seq<BuilderCall>)
    requires j < |ms|
    ensures AttrCall(e, ms[j], value).Err? ==> PrependCalls(out, AttrCallsFrom(e, ms, j, value)).Err?
    ensures AttrCall(e, ms[j], value).Ok? ==>
      PrependCalls(out, AttrCallsFrom(e, ms, j, value))
      == PrependCalls(out + AttrCall(e, ms[j], value).value, AttrCallsFrom(e, ms, j + 1, value))
  {
    var h := AttrCall(e, ms[j], value);
    if h.Ok? {
      PrependCallsAssoc(out, h.value, AttrCallsFrom(e, ms, j + 1, value));
    }
  }

  lemma {:induction false} AttrCallsFromSuffix(e: Env, ms: seq<FieldMeta>, j: nat, value: Val)
    requires j <= |ms|
    ensures AttrCallsFrom(e, ms, j, value) == AttrCalls(e, ms[j..], value)
    decreases |ms| - j
  {
    if j < |ms| {
      assert ms[j..][0] == ms[j] && ms[j..][1..] == ms[j + 1..];
      AttrCallsFromSuffix(e, ms, j + 1, value);
    }
  }

  /** Read from the first descriptor, the indexed attribute calls are those of the whole list. */
  lemma AttrCallsFromStart(e: Env, ms: seq<FieldMeta>, value: Val)
    ensures AttrCallsFrom(e, ms, 0, value) == AttrCalls(e, ms, value)
  {
    AttrCallsFromSuffix(e, ms, 0, value);
    assert ms[0..] == ms;
  }

  lemma WriteItemsStep(e: Env, parent: Val, items: seq<Val>, visited: set<nat>)
    requires parent.Arr? && items != [] && forall w :: w in items ==> w in parent.items
    ensures WriteItems(e, parent, items, visited)
            == if IsPrimitiveButString(items[0]) then WriteItems(e, parent, items[1..], visited)
               else if items[0].Str? then PrependEmitted([Text(items[0].s)], WriteItems(e, parent, items[1..], visited))
               else
                 var s := Write(e, items[0], visited);
                 if s.Err? then s else PrependEmitted(s.value.calls, WriteItems(e, parent, items[1..], s.value.visited))
  {
  }

  lemma WriteFieldsStep(e: Env, parent: Val, keys: seq<Field>, visited: set<nat>)
    requires parent.Obj? && keys != [] && forall f :: f in keys ==> f in parent.fields
    ensures WriteFields(e, parent, keys, visited)
            == var s := WriteField(e, parent, keys[0], visited);
               if s.Err? then s else PrependEmitted(s.value.calls, WriteFields(e, parent, keys[1..], s.value.visited))
  {
  }

  /** Writing a + b writes a, then b from where a left the visited set. */
  lemma {:induction false} WriteFieldsAppend(e: Env, parent: Val, a: seq<Field>, b: seq<Field>, visited: set<nat>)
    requires parent.Obj? && forall f :: f in a + b ==> f in parent.fields
    ensures forall f :: f in a ==> f in parent.fields
    ensures forall f :: f in b ==> f in parent.fields
    ensures WriteFields(e, parent, a + b, visited)
            == var ra := WriteFields(e, parent, a, visited);
               if ra.Err? then ra else PrependEmitted(ra.value.calls, WriteFields(e, parent, b, ra.value.visited))
    decreases |a|
  {
    forall f | f in a ensures f in parent.fields { assert f in a + b; }
    forall f | f in b ensures f in parent.fields { assert f in a + b; }
    if a == [] {
      assert a + b == b;
      PrependEmittedNil(WriteFields(e, parent, b, visited));
    } else {
      assert (a + b)[0] == a[0] && (a + b)[1..] == a[1..] + b;
      var s := WriteField(e, parent, a[0], visited);
      if s.Ok? {
        WriteFieldsAppend(e, parent, a[1..], b, s.value.visited);
        var ra := WriteFields(e, parent, a[1..], s.value.visited);
        if ra.Ok? {
          PrependEmittedAssoc(s.value.calls, ra.value.calls, WriteFields(e, parent, b, ra.value.visited));
        }
      }
    }
  }

  /** An attribute property writes attributes only and visits nothing. */
  lemma AttrFieldWritesAtts(e: Env, parent: Val, f: Field, visited: set<nat>)
    requires parent.Obj? && f in parent.fields && IsAttrField(GetXmlFieldMeta(e.reg, parent), f)
    ensures var r := WriteField(e, parent, f, visited);
      r.Ok? ==> r.value.visited == visited && forall i :: 0 <= i < |r.value.calls| ==> r.value.calls[i].Att?
  {
    assert MetasFor(GetXmlFieldMeta(e.reg, parent), f.prop) != [];
  }

  /** The attribute properties together write attributes only and visit nothing. */
  lemma {:induction false} AttrFieldsWriteAtts(e: Env, parent: Val, keys: seq<Field>, visited: set<nat>)
    requires parent.Obj? && forall f :: f in keys ==> f in parent.fields
    requires forall k :: 0 <= k < |keys| ==> IsAttrField(GetXmlFieldMeta(e.reg, parent), keys[k])
    ensures var r := WriteFields(e, parent, keys, visited);
      r.Ok? ==> r.value.visited == visited && forall i :: 0 <= i < |r.value.calls| ==> r.value.calls[i].Att?
    decreases |keys|
  {
    if keys != [] {
      assert keys[0] in keys;
      AttrFieldWritesAtts(e, parent, keys[0], visited);
      forall f | f in keys[1..] ensures f in parent.fields { assert f in keys; }
      forall k | 0 <= k < |keys[1..]| ensures IsAttrField(GetXmlFieldMeta(e.reg, parent), keys[1..][k]) {
        assert keys[1..][k] == keys[k + 1];
      }
      AttrFieldsWriteAtts(e, parent, keys[1..], visited);
    }
  }

  /**
   * Attributes come first: the content of an object is the attribute calls
   * of its attribute properties, then what its other properties write.
   */
  lemma AttributesFirst(e: Env, v: Val, visited: set<nat>)
    requires v.Obj?
    ensures var metas := GetXmlFieldMeta(e.reg, v);
      var r := WriteContent(e, v, visited);
      var a := WriteFields(e, v, AttrFields(v.fields, metas), visited);
      r.Ok? ==> a.Ok? && (forall i :: 0 <= i < |a.value.calls| ==> a.value.calls[i].Att?)
                && var rest := WriteFields(e, v, OtherFields(v.fields, metas), visited);
                   rest.Ok? && r.value.calls == a.value.calls + rest.value.calls
  {
    var metas := GetXmlFieldMeta(e.reg, v);
    var af, of := AttrFields(v.fields, metas), OtherFields(v.fields, metas);
    WriteFieldsAppend(e, v, af, of, visited);
    AttrFieldsWriteAtts(e, v, af, visited);
  }

  /**
   * A property that carries descriptors, none of them an attribute, writes
   * nothing at all: an element descriptor's name is only registered.
   */
  lemma ElementOnlyFieldSilent(e: Env, parent: Val, f: Field, visited: set<nat>)
    requires parent.Obj? && f in parent.fields
    requires var pm := MetasFor(GetXmlFieldMeta(e.reg, parent), f.prop); pm != [] && !HasAttr(pm)
    ensures WriteField(e, parent, f, visited) == Ok(Emitted([], visited))
  {
    var pm := MetasFor(GetXmlFieldMeta(e.reg, parent), f.prop);
    if !IsNullish(f.value) && !IsIgnored(pm) {
      NoAttrNoCalls(e, pm, f.value);
    }
  }

  lemma {:induction false} NoAttrNoCalls(e: Env, ms: seq<FieldMeta>, value: Val)
    requires !HasAttr(ms)
    ensures AttrCalls(e, ms, value) == Ok([])
  {
    if ms != [] {
      NoAttrNoCalls(e, ms[1..], value);
      assert AttrCall(e, ms[0], value) == Ok([]);
      var none: seq<BuilderCall> := [];
      assert none + none == none;
    }
  }

  /** `metaByProp`: each property with descriptors, mapped to them in registration order. */
  ghost predicate Indexes(byProp: map<string, seq<FieldMeta>>, metas: seq<FieldMeta>) {
    forall p :: (p in byProp <==> MetasFor(metas, p) != []) && (p in byProp ==> byProp[p] == MetasFor(metas, p))
  }

  /** The loop that builds `metaByProp` from a class's descriptor list. */
  method IndexMetas(metas: seq<FieldMeta>) returns (byProp: map<string, seq<FieldMeta>>)
    ensures Indexes(byProp, metas)
  {
    byProp := map[];
    var i := 0;
    while i < |metas|
      invariant 0 <= i <= |metas| && Indexes(byProp, metas[..i])
    {
      var m := metas[i];
      var arr := if m.prop in byProp then byProp[m.prop] else [];
      byProp := byProp[m.prop := arr + [m]];
      assert metas[..i + 1][..i] == metas[..i];
      i := i + 1;
    }
    assert metas[..i] == metas;
  }

  lemma SeqAssoc3<T>(a: seq<T>, b: seq<T>, c: seq<T>, d: seq<T>)
    ensures a + b + c + d == a + (b + c + d)
  {
  }

  lemma SeqAssoc4<T>(a: seq<T>, b: seq<T>, c: seq<T>, d: seq<T>, e: seq<T>)
    ensures a + b + c + d + e == a + (b + c + d + e)
  {
  }

  /** The namespace declarations on the root element: one `xmlns` attribute per binding, in insertion order. */
  function NsDecls(t: NsTable): (r: seq<BuilderCall>)
    ensures |r| == |t|
    ensures forall i :: 0 <= i < |t| ==> r[i] == Att(Some("xmlns"), t[i].1, t[i].0)
  {
    if t == [] then [] else NsDecls(t[..|t| - 1]) + [Att(Some("xmlns"), t[|t| - 1].1, t[|t| - 1].0)]
  }

  datatype Serialized = Serialized(calls: seq<BuilderCall>, ns: NsState)

  /** `serialize(root, name)` from namespace state `st`: the calls made and the final namespace state. */
  function SerializeSpec(reg: Registry, fmts: Formatters, format: XmlFormat.FormatOptions,
                         st: NsState, root: Val, name: Option<XmlName>): Result<Serialized>
    requires root.Obj?
  {
    var nm := if name.Some? then name else GetXmlName(reg, root);
    if !Truthy(nm) then Err("can not find name for given object")
    else
      var cur := XmlNameToParts(nm.value);
      var st1 := if HasNs(cur) then Assign(st, Plain(cur.ns.value), true) else st;
      var g := Gather(reg, root, {});
      if g.Err? then Err(g.error)
      else
        var st2 := AssignAll(st1, g.value.names);
        var body := WriteContent(Env(reg, fmts, format, st2.table), root, {root.id});
        if body.Err? then Err(body.error)
        else Ok(Serialized([Ele(None, cur.name)] + NsDecls(st2.table) + body.value.calls + [End], st2))
  }

  // ---------------------------------------------------------------------
  // The serializer object

  class XmlSerializer {
    /** The builder the serializer writes to. */
    const builder: CallLog
    const reg: Registry
    const fmts: Formatters
    const format: XmlFormat.FormatOptions
    /** Namespace (lowercased) to prefix, in insertion order. */
    var ns: NsTable
    var prefixCount: nat

    ghost predicate Valid()
      reads this
    {
      NsValid(ns, prefixCount)
    }

    function St(): NsState
      reads this
    {
      NsState(ns, prefixCount)
    }

    function Ctx(): Env
      reads this
    {
      Env(reg, fmts, format, ns)
    }

    constructor (builder: CallLog, reg: Registry, fmts: Formatters, format: XmlFormat.FormatOptions)
      ensures Valid() && ns == [] && prefixCount == 0
      ensures this.builder == builder && this.reg == reg && this.fmts == fmts && this.format == format
    {
      this.builder := builder;
      this.reg := reg;
      this.fmts := fmts;
      this.format := format;
      ns := [];
      prefixCount := 0;
    }

    /** `withNamespace(...names)`: binds the namespace of each name to a generated prefix. */
    method WithNamespace(names: seq<XmlName>) returns (self: XmlSerializer)
      requires Valid()
      modifies this
      ensures self == this && Valid()
      ensures St() == AssignAll(old(St()), names)
    {
      var i := 0;
      while i < |names|
        invariant 0 <= i <= |names| && Valid()
        invariant St() == AssignAll(old(St()), names[..i])
      {
        assert names[..i + 1][..i] == names[..i];
        AssignNamespace(names[i], false);
        i := i + 1;
      }
      assert names[..i] == names;
      return this;
    }

    /** `_buildNsPrefix`: the next ns<k> prefix, which no binding uses yet, so the search ends at once. */
    method BuildNsPrefix() returns (value: string)
      requires Valid()
      modifies this
      ensures value == NsName(old(prefixCount)) && prefixCount == old(prefixCount) + 1
      ensures ns == old(ns)
      ensures forall i :: 0 <= i < |ns| ==> ns[i].1 != value
    {
      ValuesBelow(ns, prefixCount);
      var alreadyReferenced := false;
      var first := true;
      value := "";
      while first || alreadyReferenced
        invariant ns == old(ns)
        invariant first ==> prefixCount == old(prefixCount) && !alreadyReferenced
        invariant !first ==> !alreadyReferenced && value == NsName(old(prefixCount))
                             && prefixCount == old(prefixCount) + 1
        decreases if first then 1 else 0
      {
        first := false;
        value := NsName(prefixCount);
        prefixCount := prefixCount + 1;
        var i := 0;
        while i < |ns|
          invariant 0 <= i <= |ns| && !alreadyReferenced
        {
          if ns[i].1 == value {
            alreadyReferenced := true;
            break;
          }
          i := i + 1;
        }
      }
    }

    /** `_assignNamespace(qn, prefix)`, with `isDefault` for the prefix "xmlns". */
    method AssignNamespace(qn: XmlName, isDefault: bool)
      requires Valid()
      modifies this
      ensures Valid()
      ensures St() == Assign(old(St()), qn, isDefault)
    {
      ghost var st0 := St();
      AssignValid(st0, qn, isDefault);
      var nqn := XmlNameToParts(qn);
      if HasNs(nqn) {
        var key := ToLower(nqn.ns.value);
        assert Assign(st0, qn, isDefault) == Bind(st0, key, isDefault);
        BindFromTable(key, isDefault);
      } else if isDefault {
        var key := ToLower(nqn.name);
        assert Assign(st0, qn, isDefault) == Bind(st0, key, true);
        BindFromTable(key, true);
      }
    }

    /** The `if (!this._ns.get(ns)) this._ns.set(ns, prefix ?? this._buildNsPrefix(ns))` step. */
    method BindFromTable(key: string, isDefault: bool)
      requires Valid()
      modifies this
      ensures St() == Bind(old(St()), key, isDefault)
    {
      ValuesBelow(ns, prefixCount);
      NsGetFinds(ns, key);
      var p := NsGet(ns, key);
      if p.None? || p.value == "" {
        var value;
        if isDefault {
          value := "xmlns";
        } else {
          value := BuildNsPrefix();
        }
        ns := NsSet(ns, key, value);
      }
    }

    /** `_gatherNamespaces(tag, visited)`: assigns the namespaces of every name met, in walk order. */
    method GatherNamespaces(v: Val, visited: set<nat>) returns (r: Result<set<nat>>)
      requires Valid()
      modifies this
      ensures Valid()
      ensures var g := Gather(reg, v, visited);
        r.Ok? == g.Ok? && (g.Ok? ==> r.value == g.value.visited && St() == AssignAll(old(St()), g.value.names))
      decreases v, 1, 0
    {
      match v
      case Arr(id, items) =>
        if id in visited {
          return Ok(visited);
        }
        r := GatherItemsOf(v, visited + {id});
      case Obj(id, cls, fields) =>
        if id in visited {
          return Ok(visited);
        }
        var q := GetXmlName(reg, v);
        if q.Some? {
          AssignNamespace(q.value, false);
        }
        ghost var own: seq<XmlName> := if q.Some? then [q.value] else [];
        assert St() == AssignAll(old(St()), own);
        var toVisit := GatherFieldNames(v, old(St()), own);
        ghost var names := own + FieldNames(fields, GetXmlFieldMeta(reg, v));
        r := GatherValues(v, toVisit, visited + {id}, old(St()), names);
      case _ =>
        return Err("Invalid value used in weak set");
    }

    /** The walk over the items of an array, skipping primitives. */
    method GatherItemsOf(v: Val, visited: set<nat>) returns (r: Result<set<nat>>)
      requires Valid() && v.Arr?
      modifies this
      ensures Valid()
      ensures var g := GatherItems(reg, v, v.items, visited);
        r.Ok? == g.Ok? && (g.Ok? ==> r.value == g.value.visited && St() == AssignAll(old(St()), g.value.names))
      decreases v, 0, |v.items|
    {
      var items := v.items;
      var vis := visited;
      ghost var names: seq<XmlName> := [];
      var i := 0;
      assert items[i..] == items;
      PrependNamesNil(GatherItems(reg, v, items, visited));
      while i < |items|
        invariant 0 <= i <= |items| && Valid()
        invariant St() == AssignAll(old(St()), names)
        invariant GatherItems(reg, v, items, visited) == PrependNames(names, GatherItems(reg, v, items[i..], vis))
      {
        var w := items[i];
        GatherItemsStep(reg, v, items[i..], vis);
        assert items[i..][0] == w && items[i..][1..] == items[i + 1..];
        if !IsPrimitive(w) {
          var s := GatherNamespaces(w, vis);
          if s.Err? {
            return Err(s.error);
          }
          ghost var more := Gather(reg, w, vis).value.names;
          AssignAllAppend(old(St()), names, more);
          PrependNamesAssoc(names, more, GatherItems(reg, v, items[i + 1..], s.value));
          names := names + more;
          vis := s.value;
        }
        i := i + 1;
      }
      assert items[i..] == [] && names + [] == names;
      return Ok(vis);
    }

    /**
     * The loop over the properties of an object: assigns the namespaces of
     * their descriptor names and returns the properties to visit next.
     */
    method GatherFieldNames(v: Val, ghost st0: NsState, ghost own: seq<XmlName>) returns (toVisit: seq<Field>)
      requires Valid() && v.Obj? && St() == AssignAll(st0, own)
      modifies this
      ensures Valid()
      ensures toVisit == ToVisit(v.fields, GetXmlFieldMeta(reg, v))
      ensures St() == AssignAll(st0, own + FieldNames(v.fields, GetXmlFieldMeta(reg, v)))
    {
      var fields := v.fields;
      var metas := GetXmlFieldMeta(reg, v);
      toVisit := [];
      var i := 0;
      assert fields[..i] == [] && own + [] == own;
      while i < |fields|
        invariant 0 <= i <= |fields| && Valid()
        invariant toVisit == ToVisit(fields[..i], metas)
        invariant St() == AssignAll(st0, own + FieldNames(fields[..i], metas))
      {
        FieldNamesSnoc(fields, i, metas, own);
        ToVisitSnoc(fields, i, metas);
        var visit := GatherField(v, fields[i], st0, own + FieldNames(fields[..i], metas));
        if visit {
          toVisit := toVisit + [fields[i]];
        }
        i := i + 1;
      }
      assert fields[..i] == fields;
    }

    /** One property: unless it is skipped, assigns its descriptor names and marks it for visiting. */
    method GatherField(v: Val, f: Field, ghost st0: NsState, ghost before: seq<XmlName>) returns (visit: bool)
      requires Valid() && St() == AssignAll(st0, before)
      modifies this
      ensures Valid()
      ensures var metas := GetXmlFieldMeta(reg, v);
        visit == !Skipped(metas, f)
        && St() == AssignAll(st0, before + (if Skipped(metas, f) then [] else MetaNames(MetasFor(metas, f.prop))))
    {
      var metas := GetXmlFieldMeta(reg, v);
      visit := !Skipped(metas, f);
      if visit {
        AssignMetaNames(MetasFor(metas, f.prop), st0, before);
      } else {
        assert before + [] == before;
      }
    }

    /** The loop over one property's descriptors: assigns the namespace of each name that is set. */
    method AssignMetaNames(pm: seq<FieldMeta>, ghost st0: NsState, ghost before: seq<XmlName>)
      requires Valid() && St() == AssignAll(st0, before)
      modifies this
      ensures Valid()
      ensures St() == AssignAll(st0, before + MetaNames(pm))
    {
      var j := 0;
      assert pm[..j] == [] && before + [] == before;
      while j < |pm|
        invariant 0 <= j <= |pm| && Valid()
        invariant St() == AssignAll(st0, before + MetaNames(pm[..j]))
      {
        MetaNamesSnoc(pm, j, before);
        ghost var l := before + MetaNames(pm[..j]);
        if Truthy(pm[j].name) {
          var x := pm[j].name.value;
          ghost var s0 := St();
          AssignNamespace(x, false);
          assert St() == Assign(s0, x, false);
          AssignAllSnoc(st0, l, x);
          assert St() == AssignAll(st0, l + [x]);
          assert before + MetaNames(pm[..j + 1]) == l + [x];
        } else {
          assert before + MetaNames(pm[..j + 1]) == l;
        }
        j := j + 1;
      }
      assert pm[..j] == pm;
    }

    /** The loop over the values collected for visiting, skipping primitives. */
    method GatherValues(v: Val, toVisit: seq<Field>, visited: set<nat>,
                        ghost st0: NsState, ghost names0: seq<XmlName>)
      returns (r: Result<set<nat>>)
      requires Valid() && v.Obj? && forall f :: f in toVisit ==> f in v.fields
      requires St() == AssignAll(st0, names0)
      modifies this
      ensures Valid()
      ensures var g := PrependNames(names0, GatherFields(reg, v, toVisit, visited));
        r.Ok? == g.Ok? && (g.Ok? ==> r.value == g.value.visited && St() == AssignAll(st0, g.value.names))
      decreases v, 0, |toVisit|
    {
      var vis := visited;
      ghost var names := names0;
      var k := 0;
      assert toVisit[k..] == toVisit;
      while k < |toVisit|
        invariant 0 <= k <= |toVisit| && Valid()
        invariant St() == AssignAll(st0, names)
        invariant PrependNames(names0, GatherFields(reg, v, toVisit, visited))
                  == PrependNames(names, GatherFields(reg, v, toVisit[k..], vis))
      {
        var f := toVisit[k];
        assert f in v.fields;
        GatherFieldsStep(reg, v, toVisit[k..], vis);
        assert toVisit[k..][0] == f && toVisit[k..][1..] == toVisit[k + 1..];
        if !IsPrimitive(f.value) {
          var s := GatherNamespaces(f.value, vis);
          if s.Err? {
            return Err(s.error);
          }
          ghost var more := Gather(reg, f.value, vis).value.names;
          AssignAllAppend(st0, names, more);
          PrependNamesAssoc(names, more, GatherFields(reg, v, toVisit[k + 1..], s.value));
          names := names + more;
          vis := s.value;
        }
        k := k + 1;
      }
      assert toVisit[k..] == [] && names + [] == names;
      return Ok(vis);
    }
    /** `_writeObject(builder, source, visited)`: an element for a named object, the items of an array. */
    method WriteObject(v: Val, visited: set<nat>) returns (r: Result<set<nat>>)
      modifies builder
      ensures var w := Write(Ctx(), v, visited);
        r.Ok? == w.Ok? && (w.Ok? ==> r.value == w.value.visited && builder.calls == old(builder.calls) + w.value.calls)
      decreases v, 2, 0
    {
      match v
      case Arr(id, items) =>
        if id in visited {
          assert builder.calls == old(builder.calls) + [];
          return Ok(visited);
        }
        r := WriteItemsOf(v, visited + {id});
      case Obj(id, cls, fields) =>
        if id in visited {
          assert builder.calls == old(builder.calls) + [];
          return Ok(visited);
        }
        r := WriteElement(v, visited + {id});
      case _ =>
        return Err("Invalid value used in weak set");
    }

    /** The element of a not yet visited object: nothing when its class has no element name. */
    method WriteElement(v: Val, visited: set<nat>) returns (r: Result<set<nat>>)
      requires v.Obj?
      modifies builder
      ensures var w := Element(Ctx(), v, visited);
        r.Ok? == w.Ok? && (w.Ok? ==> r.value == w.value.visited && builder.calls == old(builder.calls) + w.value.calls)
      decreases v, 1, 1
    {
      ghost var e := Ctx();
      var q := GetXmlName(reg, v);
      if q.None? {
        assert builder.calls == old(builder.calls) + [];
        return Ok(visited);
      }
      var parts := XmlNameToParts(q.value);
      var prefix := GetPrefix(ns, parts);
      var tmp := ToQualifiedString(parts.name, prefix);
      builder.calls := builder.calls + [Ele(None, tmp)];
      r := WriteObjectContent(v, visited);
      if r.Err? {
        return;
      }
      ghost var body := WriteContent(e, v, visited).value.calls;
      builder.calls := builder.calls + [End];
      assert builder.calls == old(builder.calls) + ([Ele(None, tmp)] + body + [End]) by {
        SeqAssoc3(old(builder.calls), [Ele(None, tmp)], body, [End]);
      }
    }

    /** The loop over an array's items: text for strings, nothing for numbers and booleans. */
    method WriteItemsOf(v: Val, visited: set<nat>) returns (r: Result<set<nat>>)
      requires v.Arr?
      modifies builder
      ensures var w := WriteItems(Ctx(), v, v.items, visited);
        r.Ok? == w.Ok? && (w.Ok? ==> r.value == w.value.visited && builder.calls == old(builder.calls) + w.value.calls)
      decreases v, 1, 0
    {
      ghost var e := Ctx();
      var items := v.items;
      var vis := visited;
      ghost var out: seq<BuilderCall> := [];
      var i := 0;
      assert items[i..] == items;
      PrependEmittedNil(WriteItems(e, v, items, visited));
      while i < |items|
        invariant 0 <= i <= |items|
        invariant builder.calls == old(builder.calls) + out
        invariant WriteItems(e, v, items, visited) == PrependEmitted(out, WriteItems(e, v, items[i..], vis))
      {
        var w := items[i];
        WriteItemsStep(e, v, items[i..], vis);
        assert items[i..][0] == w && items[i..][1..] == items[i + 1..];
        if w.Str? {
          builder.calls := builder.calls + [Text(w.s)];
          PrependEmittedAssoc(out, [Text(w.s)], WriteItems(e, v, items[i + 1..], vis));
          out := out + [Text(w.s)];
        } else if !IsPrimitiveButString(w) {
          var s := WriteObject(w, vis);
          if s.Err? {
            return Err(s.error);
          }
          ghost var more := Write(e, w, vis).value.calls;
          PrependEmittedAssoc(out, more, WriteItems(e, v, items[i + 1..], s.value));
          out := out + more;
          vis := s.value;
        }
        i := i + 1;
      }
      assert items[i..] == [] && out + [] == out;
      return Ok(vis);
    }

    /** `_writeObjectContent(builder, source, visited)`: the properties of one object, attribute properties first. */
    method WriteObjectContent(v: Val, visited: set<nat>) returns (r: Result<set<nat>>)
      requires v.Obj?
      modifies builder
      ensures var w := WriteContent(Ctx(), v, visited);
        r.Ok? == w.Ok? && (w.Ok? ==> r.value == w.value.visited && builder.calls == old(builder.calls) + w.value.calls)
      decreases v, 1, 0
    {
      ghost var e := Ctx();
      var metas := GetXmlFieldMeta(reg, v);
      var byProp := IndexMetas(metas);
      var keys := AttrFirst(v.fields, metas);
      r := WriteKeys(v, keys, byProp, visited);
    }

    /** The loop of `_writeObjectContent` over the sorted keys. */
    method WriteKeys(v: Val, keys: seq<Field>, byProp: map<string, seq<FieldMeta>>, visited: set<nat>)
      returns (r: Result<set<nat>>)
      requires v.Obj? && forall f :: f in keys ==> f in v.fields
      requires Indexes(byProp, GetXmlFieldMeta(reg, v))
      modifies builder
      ensures var w := WriteFields(Ctx(), v, keys, visited);
        r.Ok? == w.Ok? && (w.Ok? ==> r.value == w.value.visited && builder.calls == old(builder.calls) + w.value.calls)
      decreases v, 0, 1
    {
      ghost var e := Ctx();
      var vis := visited;
      ghost var out: seq<BuilderCall> := [];
      var i := 0;
      assert keys[i..] == keys;
      PrependEmittedNil(WriteFields(e, v, keys, visited));
      while i < |keys|
        invariant 0 <= i <= |keys|
        invariant builder.calls == old(builder.calls) + out
        invariant WriteFields(e, v, keys, visited) == PrependEmitted(out, WriteFields(e, v, keys[i..], vis))
      {
        var f := keys[i];
        WriteFieldsStep(e, v, keys[i..], vis);
        assert keys[i..][0] == f && keys[i..][1..] == keys[i + 1..];
        var s := WriteProp(v, f, byProp, vis);
        if s.Err? {
          return Err(s.error);
        }
        ghost var more := WriteField(e, v, f, vis).value.calls;
        PrependEmittedAssoc(out, more, WriteFields(e, v, keys[i + 1..], s.value));
        out := out + more;
        vis := s.value;
        i := i + 1;
      }
      assert keys[i..] == [] && out + [] == out;
      return Ok(vis);
    }

    /** One key of `_writeObjectContent`: skipped, attributes, text, or a nested object. */
    method WriteProp(v: Val, f: Field, byProp: map<string, seq<FieldMeta>>, visited: set<nat>)
      returns (r: Result<set<nat>>)
      requires v.Obj? && f in v.fields && Indexes(byProp, GetXmlFieldMeta(reg, v))
      modifies builder
      ensures var w := WriteField(Ctx(), v, f, visited);
        r.Ok? == w.Ok? && (w.Ok? ==> r.value == w.value.visited && builder.calls == old(builder.calls) + w.value.calls)
      decreases v, 0, 0
    {
      var value := f.value;
      if IsNullish(value) {
        assert builder.calls == old(builder.calls) + [];
        return Ok(visited);
      }
      if f.prop in byProp {
        var pm := byProp[f.prop];
        if IsIgnored(pm) {
          assert builder.calls == old(builder.calls) + [];
          return Ok(visited);
        }
        var a := WriteAttrs(pm, value);
        if a.Err? {
          return Err(a.error);
        }
        return Ok(visited);
      }
      if IsPrimitiveButString(value) {
        assert builder.calls == old(builder.calls) + [];
        return Ok(visited);
      }
      if value.Str? {
        builder.calls := builder.calls + [Text(value.s)];
        return Ok(visited);
      }
      r := WriteObject(value, visited);
    }

    /** The loop over one property's descriptors, writing an attribute for each attribute descriptor. */
    method WriteAttrs(pm: seq<FieldMeta>, value: Val) returns (r: Result<()>)
      modifies builder
      ensures var a := AttrCalls(Ctx(), pm, value);
        r.Ok? == a.Ok? && (a.Ok? ==> builder.calls == old(builder.calls) + a.value)
    {
      ghost var e := Ctx();
      r := WriteAttrsFrom(pm, value, e);
      AttrCallsFromStart(e, pm, value);
    }

    /** The descriptor loop of WriteAttrs, against the serializer's context `e`. */
    method WriteAttrsFrom(pm: seq<FieldMeta>, value: Val, ghost e: Env) returns (r: Result<()>)
      requires e == Ctx()
      modifies builder
      ensures e == Ctx()
      ensures var a := AttrCallsFrom(e, pm, 0, value);
        r.Ok? == a.Ok? && (a.Ok? ==> builder.calls == old(builder.calls) + a.value)
    {
      ghost var out: seq<BuilderCall> := [];
      var j := 0;
      PrependCallsNil(AttrCallsFrom(e, pm, 0, value));
      while j < |pm|
        invariant 0 <= j <= |pm|
        invariant e == Ctx() && builder.calls == old(builder.calls) + out
        invariant AttrCallsFrom(e, pm, 0, value) == PrependCalls(out, AttrCallsFrom(e, pm, j, value))
      {
        var a;
        a, out := WriteAttrAt(pm, j, value, e, out, old(builder.calls));
        if a.Err? {
          return Err(a.error);
        }
        j := j + 1;
      }
      assert out + [] == out;
      return Ok(());
    }

    /** The loop body of WriteAttrs: descriptor j, with `out` the calls written for descriptors 0 .. j - 1. */
    method WriteAttrAt(pm: seq<FieldMeta>, j: nat, value: Val, ghost e: Env, ghost out: seq<BuilderCall>, ghost base: seq<BuilderCall>)
      returns (a: Result<()>, ghost out': seq<BuilderCall>)
      requires j < |pm| && e == Ctx() && builder.calls == base + out
      modifies builder
      ensures e == Ctx()
      ensures a.Err? == AttrCall(e, pm[j], value).Err?
      ensures a.Err? ==> PrependCalls(out, AttrCallsFrom(e, pm, j, value)).Err?
      ensures a.Ok? ==>
        out' == out + AttrCall(e, pm[j], value).value
        && builder.calls == old(builder.calls) + AttrCall(e, pm[j], value).value
        && builder.calls == base + out'
        && PrependCalls(out, AttrCallsFrom(e, pm, j, value)) == PrependCalls(out', AttrCallsFrom(e, pm, j + 1, value))
    {
      a := WriteAttr(pm[j], value);
      AttrCallsStep(e, pm, j, value, out);
      out' := out;
      if a.Ok? {
        var written := AttrCall(e, pm[j], value).value;
        out' := out + written;
        assert base + out' == base + out + written;
      }
    }

    /** One descriptor of a property: an attribute when it is an attribute descriptor with a name and a non-empty value. */
    method WriteAttr(m: FieldMeta, value: Val) returns (r: Result<()>)
      modifies builder
      ensures var a := AttrCall(Ctx(), m, value);
        r.Ok? == a.Ok? && (a.Ok? ==> builder.calls == old(builder.calls) + a.value)
    {
      var name := if m.name.Some? then m.name.value else Plain(ToLower(m.prop));
      if name != Plain("") && m.kind == AttrKind {
        var vStr := AttrValue(Ctx(), m, value);
        if vStr.Err? {
          return Err(vStr.error);
        }
        if vStr.value != "" {
          var parts := XmlNameToParts(name);
          var prefix := GetPrefix(ns, parts);
          builder.calls := builder.calls + [Att(None, ToQualifiedString(parts.name, prefix), vStr.value)];
          return Ok(());
        }
      }
      assert builder.calls == old(builder.calls) + [];
      return Ok(());
    }

    /** The namespace declarations of the root element, one `xmlns` attribute per binding. */
    method WriteNsDecls()
      modifies builder
      ensures builder.calls == old(builder.calls) + NsDecls(ns)
    {
      var k := 0;
      while k < |ns|
        invariant 0 <= k <= |ns|
        invariant builder.calls == old(builder.calls) + NsDecls(ns[..k])
      {
        builder.calls := builder.calls + [Att(Some("xmlns"), ns[k].1, ns[k].0)];
        assert ns[..k + 1][..k] == ns[..k];
        k := k + 1;
      }
      assert ns[..k] == ns;
    }

    /**
     * `serialize(root, name)`: the root element under its local name, one
     * `xmlns` attribute per namespace binding, then the root's content.
     */
    method Serialize(root: Val, name: Option<XmlName>) returns (r: Result<()>)
      requires Valid() && root.Obj?
      modifies this, builder
      ensures Valid()
      ensures var s := SerializeSpec(reg, fmts, format, old(St()), root, name);
        r.Ok? == s.Ok? && (s.Ok? ==> builder.calls == old(builder.calls) + s.value.calls && St() == s.value.ns)
    {
      ghost var st0 := St();
      var nm := if name.Some? then name else GetXmlName(reg, root);
      if !Truthy(nm) {
        return Err("can not find name for given object");
      }
      var cur := XmlNameToParts(nm.value);
      if HasNs(cur) {
        AssignNamespace(Plain(cur.ns.value), true);
      }
      ghost var st1 := St();
      assert st1 == if HasNs(cur) then Assign(st0, Plain(cur.ns.value), true) else st0;
      var g := GatherNamespaces(root, {});
      if g.Err? {
        return Err(g.error);
      }
      ghost var names := Gather(reg, root, {}).value.names;
      assert St() == AssignAll(st1, names);
      ghost var c0 := builder.calls;
      ghost var decls := NsDecls(ns);
      builder.calls := builder.calls + [Ele(None, cur.name)];
      WriteNsDecls();
      ghost var c2 := builder.calls;
      var body := WriteObjectContent(root, {root.id});
      if body.Err? {
        return Err(body.error);
      }
      ghost var bc := WriteContent(Ctx(), root, {root.id}).value.calls;
      builder.calls := builder.calls + [End];
      assert builder.calls == c0 + ([Ele(None, cur.name)] + decls + bc + [End]) by {
        SeqAssoc4(c0, [Ele(None, cur.name)], decls, bc, [End]);
      }
      return Ok(());
    }
  }
}
