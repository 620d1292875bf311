/**
 * XmlBuilder, the token writer behind IXmlBuilder: a stack of open element
 * contexts, start tags closed lazily, escaped text and attribute values,
 * namespace prefixes bound per element, and every piece of markup handed to
 * an IXmlWriter, which the builder sees as the log of its write calls.
 */
module XmlBuilding {
  import opened Wrappers
  import opened JsRuntime

  const XmlPrefix := "xml"
  const XmlnsPrefix := "xmlns"

  // ---------------------------------------------------------------------
  // The writer, as the builder sees it

  /** An IXmlWriter seen through its interface: the argument lists of its write calls, in order. */
  class WriteLog {
    var writes: seq<seq<string>>

    constructor ()
      ensures writes == []
    {
      writes := [];
    }
  }

  /** The text a list of write calls carries: each call's arguments joined, one call after the other. */
  function Written(ws: seq<seq<string>>): string {
    if ws == [] then "" else Written(ws[..|ws| - 1]) + Concat(ws[|ws| - 1])
  }

  lemma {:induction false} WrittenAppend(a: seq<seq<string>>, b: seq<seq<string>>)
    ensures Written(a + b) == Written(a) + Written(b)
    decreases |b|
  {
    if b == [] {
      assert a + b == a;
    } else {
      assert (a + b)[..|a + b| - 1] == a + b[..|b| - 1];
      WrittenAppend(a, b[..|b| - 1]);
    }
  }

  // ---------------------------------------------------------------------
  // Escaping (section 2.4 of XML 1.0)

  /** `s.replace(/c/g, r)`: every occurrence of `c` replaced by `r`. */
  function ReplaceAll(s: string, c: char, r: string): (t: string)
    ensures c !in r ==> c !in t
  {
    if s == [] then "" else (if s[0] == c then r else [s[0]]) + ReplaceAll(s[1..], c, r)
  }

  lemma {:induction false} ReplaceAllAppend(a: string, b: string, c: char, r: string)
    ensures ReplaceAll(a + b, c, r) == ReplaceAll(a, c, r) + ReplaceAll(b, c, r)
    decreases |a|
  {
    if a == [] {
      assert a + b == b;
    } else {
      assert (a + b)[0] == a[0] && (a + b)[1..] == a[1..] + b;
      ReplaceAllAppend(a[1..], b, c, r);
    }
  }

  lemma {:induction false} ReplaceAllAbsent(s: string, c: char, r: string)
    requires c !in s
    ensures ReplaceAll(s, c, r) == s
    decreases |s|
  {
    if s != [] {
      assert s[1..] + [] == s[1..] && c !in s[1..];
      ReplaceAllAbsent(s[1..], c, r);
    }
  }

  /** _escText: `&` first, then `<` and `>`. */
  function EscText(s: string): string {
    ReplaceAll(ReplaceAll(ReplaceAll(s, '&', "&amp;"), '<', "&lt;"), '>', "&gt;")
  }

  /** _escAttr: the text escapes, then `"` and `'`. */
  function EscAttr(s: string): string {
    ReplaceAll(ReplaceAll(EscText(s), '"', "&quot;"), '\'', "&apos;")
  }

  /** What one character of text becomes. */
  function TextEntity(c: char): string {
    if c == '&' then "&amp;" else if c == '<' then "&lt;" else if c == '>' then "&gt;" else [c]
  }

  /** What one character of an attribute value becomes. */
  function AttrEntity(c: char): string {
    if c == '"' then "&quot;" else if c == '\'' then "&apos;" else TextEntity(c)
  }

  /** Each character of `s` replaced by its entity, for attribute values when `attr` holds and for text otherwise. */
  function EscapeEach(s: string, attr: bool): string {
    if s == [] then "" else (if attr then AttrEntity(s[0]) else TextEntity(s[0])) + EscapeEach(s[1..], attr)
  }

  lemma ReplaceAllOne(x: char, c: char, r: string)
    ensures ReplaceAll([x], c, r) == if x == c then r else [x]
  {
    assert [x][0] == x && [x][1..] == [];
    assert ReplaceAll([], c, r) == "";
  }

  lemma EntityText(x: char)
    ensures ReplaceAll(ReplaceAll(ReplaceAll([x], '&', "&amp;"), '<', "&lt;"), '>', "&gt;") == TextEntity(x)
  {
    if x == '&' {
      EntityAmp();
    } else if x == '<' {
      EntityLt();
    } else {
      EntityOther(x);
    }
  }

  lemma EntityAmp()
    ensures ReplaceAll(ReplaceAll(ReplaceAll("&", '&', "&amp;"), '<', "&lt;"), '>', "&gt;") == "&amp;"
  {
    assert ReplaceAll("&", '&', "&amp;") == "&amp;" by { ReplaceAllOne('&', '&', "&amp;"); }
    assert ReplaceAll("&amp;", '<', "&lt;") == "&amp;" by { ReplaceAllAbsent("&amp;", '<', "&lt;"); }
    assert ReplaceAll("&amp;", '>', "&gt;") == "&amp;" by { ReplaceAllAbsent("&amp;", '>', "&gt;"); }
  }

  lemma EntityLt()
    ensures ReplaceAll(ReplaceAll(ReplaceAll("<", '&', "&amp;"), '<', "&lt;"), '>', "&gt;") == "&lt;"
  {
    assert ReplaceAll("<", '&', "&amp;") == "<" by { ReplaceAllOne('<', '&', "&amp;"); }
    assert ReplaceAll("<", '<', "&lt;") == "&lt;" by { ReplaceAllOne('<', '<', "&lt;"); }
    assert ReplaceAll("&lt;", '>', "&gt;") == "&lt;" by { ReplaceAllAbsent("&lt;", '>', "&gt;"); }
  }

  lemma EntityOther(x: char)
    requires x != '&' && x != '<'
    ensures ReplaceAll(ReplaceAll(ReplaceAll([x], '&', "&amp;"), '<', "&lt;"), '>', "&gt;") == TextEntity(x)
  {
    assert ReplaceAll([x], '&', "&amp;") == [x] by { ReplaceAllOne(x, '&', "&amp;"); }
    assert ReplaceAll([x], '<', "&lt;") == [x] by { ReplaceAllOne(x, '<', "&lt;"); }
    assert ReplaceAll([x], '>', "&gt;") == TextEntity(x) by { ReplaceAllOne(x, '>', "&gt;"); }
  }

  lemma EntityQuotes(x: char)
    ensures ReplaceAll(ReplaceAll(TextEntity(x), '"', "&quot;"), '\'', "&apos;") == AttrEntity(x)
  {
    var h := TextEntity(x);
    if x == '"' || x == '\'' {
      ReplaceAllOne(x, '"', "&quot;");
      if x == '"' {
        ReplaceAllAbsent("&quot;", '\'', "&apos;");
      } else {
        ReplaceAllOne(x, '\'', "&apos;");
      }
    } else if x == '&' || x == '<' || x == '>' {
      assert '"' !in h && '\'' !in h;
      ReplaceAllAbsent(h, '"', "&quot;");
      ReplaceAllAbsent(h, '\'', "&apos;");
    } else {
      ReplaceAllOne(x, '"', "&quot;");
      ReplaceAllOne(x, '\'', "&apos;");
    }
  }

  /** The chained replacements escape one character at a time: no replacement text is touched again. */
  lemma {:induction false} EscTextPerChar(s: string)
    ensures EscText(s) == EscapeEach(s, false)
    decreases |s|
  {
    if s != [] {
      var x, rest := s[0], s[1..];
      var h1 := ReplaceAll([x], '&', "&amp;");
      var r1 := ReplaceAll(rest, '&', "&amp;");
      assert s == [x] + rest;
      ReplaceAllAppend([x], rest, '&', "&amp;");
      ReplaceAllAppend(h1, r1, '<', "&lt;");
      var h2 := ReplaceAll(h1, '<', "&lt;");
      var r2 := ReplaceAll(r1, '<', "&lt;");
      ReplaceAllAppend(h2, r2, '>', "&gt;");
      EscTextPerChar(rest);
      EntityText(x);
    }
  }

  lemma {:induction false} EscAttrPerChar(s: string)
    ensures EscAttr(s) == EscapeEach(s, true)
  {
    EscTextPerChar(s);
    QuotesPerChar(s);
  }

  lemma {:induction false} QuotesPerChar(s: string)
    ensures ReplaceAll(ReplaceAll(EscapeEach(s, false), '"', "&quot;"), '\'', "&apos;") == EscapeEach(s, true)
    decreases |s|
  {
    if s != [] {
      var h := TextEntity(s[0]);
      var t := EscapeEach(s[1..], false);
      ReplaceAllAppend(h, t, '"', "&quot;");
      ReplaceAllAppend(ReplaceAll(h, '"', "&quot;"), ReplaceAll(t, '"', "&quot;"), '\'', "&apos;");
      QuotesPerChar(s[1..]);
      EntityQuotes(s[0]);
    }
  }

  /** Reads the five predefined entities back. */
  function Unescape(s: string): string
    decreases |s|
  {
    if s == [] then ""
    else if s[0] != '&' then [s[0]] + Unescape(s[1..])
    else if StartsWith(s, "&amp;") then "&" + Unescape(s[5..])
    else if StartsWith(s, "&lt;") then "<" + Unescape(s[4..])
    else if StartsWith(s, "&gt;") then ">" + Unescape(s[4..])
    else if StartsWith(s, "&quot;") then "\"" + Unescape(s[6..])
    else if StartsWith(s, "&apos;") then "'" + Unescape(s[6..])
    else [s[0]] + Unescape(s[1..])
  }

  lemma UnescapeAmp(t: string)
    ensures Unescape("&amp;" + t) == "&" + Unescape(t)
  {
    var s := "&amp;" + t;
    assert s[..5] == "&amp;" && s[5..] == t;
  }

  lemma UnescapeLt(t: string)
    ensures Unescape("&lt;" + t) == "<" + Unescape(t)
  {
    var s := "&lt;" + t;
    assert s[1] == 'l' && s[..4] == "&lt;" && s[4..] == t;
  }

  lemma UnescapeGt(t: string)
    ensures Unescape("&gt;" + t) == ">" + Unescape(t)
  {
    var s := "&gt;" + t;
    assert s[1] == 'g' && s[..4] == "&gt;" && s[4..] == t;
  }

  lemma UnescapeQuot(t: string)
    ensures Unescape("&quot;" + t) == "\"" + Unescape(t)
  {
    var s := "&quot;" + t;
    assert s[1] == 'q' && s[..6] == "&quot;" && s[6..] == t;
  }

  lemma UnescapeApos(t: string)
    ensures Unescape("&apos;" + t) == "'" + Unescape(t)
  {
    var s := "&apos;" + t;
    assert s[2] == 'p' && s[1] == 'a' && s[..6] == "&apos;" && s[6..] == t;
  }

  lemma UnescapePlain(c: char, t: string)
    requires c != '&'
    ensures Unescape([c] + t) == [c] + Unescape(t)
  {
    var s := [c] + t;
    assert s[0] == c && s[1..] == t;
  }

  lemma {:induction false} UnescapeEach(s: string, attr: bool)
    ensures Unescape(EscapeEach(s, attr)) == s
    decreases |s|
  {
    if s != [] {
      var c, t := s[0], EscapeEach(s[1..], attr);
      UnescapeEach(s[1..], attr);
      if c == '&' {
        UnescapeAmp(t);
      } else if c == '<' {
        UnescapeLt(t);
      } else if c == '>' {
        UnescapeGt(t);
      } else if attr && c == '"' {
        UnescapeQuot(t);
      } else if attr && c == '\'' {
        UnescapeApos(t);
      } else {
        UnescapePlain(c, t);
      }
      assert s == [c] + s[1..];
    }
  }

  /** Escaped text and attribute values read back as the original string. */
  lemma EscapeRoundTrip(s: string)
    ensures Unescape(EscText(s)) == s
    ensures Unescape(EscAttr(s)) == s
  {
    EscTextPerChar(s);
    EscAttrPerChar(s);
    UnescapeEach(s, false);
    UnescapeEach(s, true);
  }

  lemma EntityAvoids(c: char, attr: bool)
    ensures var e := if attr then AttrEntity(c) else TextEntity(c);
      '<' !in e && '>' !in e && (attr ==> '"' !in e && '\'' !in e)
  {
    if c == '&' || c == '<' || c == '>' || c == '"' || c == '\'' {
      assert '<' !in "&amp;" && '<' !in "&lt;" && '<' !in "&gt;" && '<' !in "&quot;" && '<' !in "&apos;";
      assert '>' !in "&amp;" && '>' !in "&lt;" && '>' !in "&gt;" && '>' !in "&quot;" && '>' !in "&apos;";
      assert '"' !in "&amp;" && '"' !in "&lt;" && '"' !in "&gt;" && '"' !in "&quot;" && '"' !in "&apos;";
      assert '\'' !in "&amp;" && '\'' !in "&lt;" && '\'' !in "&gt;" && '\'' !in "&quot;" && '\'' !in "&apos;";
    }
  }

  lemma {:induction false} EscapeEachAvoids(s: string, attr: bool)
    ensures '<' !in EscapeEach(s, attr) && '>' !in EscapeEach(s, attr)
    ensures attr ==> '"' !in EscapeEach(s, attr) && '\'' !in EscapeEach(s, attr)
    decreases |s|
  {
    if s != [] {
      EscapeEachAvoids(s[1..], attr);
      EntityAvoids(s[0], attr);
    }
  }

  /** Escaped text has no `<` or `>`; an escaped attribute value has no quote of either kind either. */
  lemma EscapedHasNoMarkup(s: string)
    ensures '<' !in EscText(s) && '>' !in EscText(s)
    ensures '<' !in EscAttr(s) && '>' !in EscAttr(s) && '"' !in EscAttr(s) && '\'' !in EscAttr(s)
  {
    EscTextPerChar(s);
    EscAttrPerChar(s);
    EscapeEachAvoids(s, false);
    EscapeEachAvoids(s, true);
  }

  // ---------------------------------------------------------------------
  // Element contexts and namespace bindings

  datatype TokenType = Declaration | Tag | Attribute | TextToken

  /** One open element: its written name, whether its start tag is closed, and its namespace bindings. */
  datatype Context = Context(name: string, closed: bool, lastToken: Option<TokenType>, depth: nat,
                             ns2prefix: map<string, string>, prefix2ns: map<string, string>,
                             defaultNs: Option<string>)

  /** `new XmlBuilder.Context(name, depth)`. */
  function NewContext(name: string, depth: nat): (c: Context)
    ensures c.name == name && c.depth == depth && !c.closed && c.lastToken.None?
    ensures c.ns2prefix == map[] && c.prefix2ns == map[] && c.defaultNs.None?
  {
    Context(name, false, None, depth, map[], map[], None)
  }

  /** A JavaScript string test: present and non-empty. */
  predicate Truthy(s: Option<string>) {
    s.Some? && s.value != ""
  }

  /** `m.get(k)` used as a condition: bound, and to a non-empty string. */
  predicate BoundIn(m: map<string, string>, k: string) {
    k in m && m[k] != ""
  }

  /**
   * _registerNamespace: the prefixes `xml` and `xmlns` are refused, and so
   * is a prefix bound to a different namespace; the first prefix recorded
   * for a namespace stays, and the prefix is bound to the namespace.
   */
  function RegisterNamespace(ctx: Context, prefix: string, uri: string): (r: Result<Context>)
    ensures r.Err? <==>
      prefix == XmlPrefix || prefix == XmlnsPrefix || (BoundIn(ctx.prefix2ns, prefix) && ctx.prefix2ns[prefix] != uri)
    ensures r.Ok? ==>
      r.value.prefix2ns == ctx.prefix2ns[prefix := uri]
      && (BoundIn(ctx.ns2prefix, uri) ==> r.value.ns2prefix == ctx.ns2prefix)
      && (!BoundIn(ctx.ns2prefix, uri) ==> r.value.ns2prefix == ctx.ns2prefix[uri := prefix])
      && r.value == ctx.(ns2prefix := r.value.ns2prefix, prefix2ns := r.value.prefix2ns)
  {
    if prefix == XmlPrefix || prefix == XmlnsPrefix then Err("reserved prefix '" + prefix + "'")
    else if BoundIn(ctx.prefix2ns, prefix) && ctx.prefix2ns[prefix] != uri then
      Err("prefix '" + prefix + "' already bound to a different namespace")
    else
      var n2p := if BoundIn(ctx.ns2prefix, uri) then ctx.ns2prefix else ctx.ns2prefix[uri := prefix];
      Ok(ctx.(ns2prefix := n2p, prefix2ns := ctx.prefix2ns[prefix := uri]))
  }

  /** Once a prefix is bound to a non-empty namespace, binding it to another one is refused. */
  lemma NoRebinding(ctx: Context, prefix: string, uri: string, other: string)
    requires RegisterNamespace(ctx, prefix, uri).Ok? && uri != "" && other != uri
    ensures RegisterNamespace(RegisterNamespace(ctx, prefix, uri).value, prefix, other).Err?
  {
  }

  /** Once a namespace has a prefix, registering it under another prefix keeps the first one. */
  lemma FirstPrefixKept(ctx: Context, prefix: string, uri: string, other: string)
    requires prefix != "" && RegisterNamespace(ctx, prefix, uri).Ok?
    requires RegisterNamespace(RegisterNamespace(ctx, prefix, uri).value, other, uri).Ok?
    ensures BoundIn(RegisterNamespace(ctx, prefix, uri).value.ns2prefix, uri)
    ensures RegisterNamespace(RegisterNamespace(ctx, prefix, uri).value, other, uri).value.ns2prefix[uri]
         == RegisterNamespace(ctx, prefix, uri).value.ns2prefix[uri]
  {
  }

  /** `xmlns` or `xmlns:<prefix>` as a name, or any name in the `xmlns` namespace. */
  function IsXmlnsDecl(ns: Option<string>, n: string): (b: bool)
    ensures Truthy(ns) ==> (b <==> ns.value == XmlnsPrefix)
    ensures !Truthy(ns) ==> (b <==> n == XmlnsPrefix || StartsWith(n, XmlnsPrefix + ":"))
  {
    if Truthy(ns) then ns.value == XmlnsPrefix
    else |n| >= |XmlnsPrefix| && StartsWith(n, XmlnsPrefix) && (|n| == |XmlnsPrefix| || n[|XmlnsPrefix|] == ':')
  }

  /**
   * _lookupPrefix, as a search from the innermost context outwards: the
   * level of the innermost of the first `n` contexts that binds `ns` to a
   * non-empty prefix, or -1.
   */
  function FindLevel(stack: seq<Context>, ns: string, n: nat): (l: int)
    requires n <= |stack|
    ensures -1 <= l < n
    ensures l >= 0 ==> BoundIn(stack[l].ns2prefix, ns) && forall j :: l < j < n ==> !BoundIn(stack[j].ns2prefix, ns)
    ensures l == -1 ==> forall j :: 0 <= j < n ==> !BoundIn(stack[j].ns2prefix, ns)
  {
    if n == 0 then -1
    else if BoundIn(stack[n - 1].ns2prefix, ns) then n - 1
    else FindLevel(stack, ns, n - 1)
  }

  /** The prefix _lookupPrefix finds. */
  function PrefixOf(stack: seq<Context>, ns: string): Option<string> {
    var l := FindLevel(stack, ns, |stack|);
    if l >= 0 then Some(stack[l].ns2prefix[ns]) else None
  }

  // ---------------------------------------------------------------------
  // Prefix allocation

  function NsPrefix(i: nat): string {
    "ns" + NatToString(i)
  }

  lemma NsPrefixInjective(i: nat, j: nat)
    ensures NsPrefix(i) == NsPrefix(j) ==> i == j
  {
    if NsPrefix(i) == NsPrefix(j) {
      assert NsPrefix(i)[2..] == NatToString(i) && NsPrefix(j)[2..] == NatToString(j);
      NatToStringInjective(i, j);
    }
  }

  /** The prefixes ns1 .. ns(i-1). */
  function NsPrefixesBelow(i: nat): set<string> {
    if i <= 1 then {} else NsPrefixesBelow(i - 1) + {NsPrefix(i - 1)}
  }

  lemma {:induction false} NsPrefixesBelowMembers(i: nat, x: string)
    ensures x in NsPrefixesBelow(i) ==> exists j :: 1 <= j < i && x == NsPrefix(j)
    decreases i
  {
    if i > 1 {
      NsPrefixesBelowMembers(i - 1, x);
    }
  }

  lemma {:induction false} NsPrefixesBelowSize(i: nat)
    requires i >= 1
    ensures |NsPrefixesBelow(i)| == i - 1
    decreases i
  {
    if i > 1 {
      NsPrefixesBelowSize(i - 1);
      if NsPrefix(i - 1) in NsPrefixesBelow(i - 1) {
        NsPrefixesBelowMembers(i - 1, NsPrefix(i - 1));
        var j :| 1 <= j < i - 1 && NsPrefix(i - 1) == NsPrefix(j);
        NsPrefixInjective(i - 1, j);
      }
    }
  }

  lemma {:induction false} NsPrefixesBelowIn(keys: set<string>, i: nat)
    requires forall j :: 1 <= j < i ==> NsPrefix(j) in keys
    ensures NsPrefixesBelow(i) <= keys
    decreases i
  {
    if i > 1 {
      NsPrefixesBelowIn(keys, i - 1);
    }
  }

  lemma {:induction false} SubsetSize<T>(a: set<T>, b: set<T>)
    requires a <= b
    ensures |a| <= |b|
    decreases |a|
  {
    if a != {} {
      var x :| x in a;
      SubsetSize(a - {x}, b - {x});
    }
  }

  /** Taken prefixes ns1 .. ns(i-1) are i - 1 distinct keys, so i - 1 cannot exceed the number of keys. */
  lemma TakenPrefixesBound(keys: set<string>, i: nat)
    requires i >= 1 && forall j :: 1 <= j < i ==> NsPrefix(j) in keys
    ensures i - 1 <= |keys|
  {
    NsPrefixesBelowSize(i);
    NsPrefixesBelowIn(keys, i);
    SubsetSize(NsPrefixesBelow(i), keys);
  }

  /** The smallest k >= i with ns<k> unbound, given that ns1 .. ns(i-1) are bound. */
  function FreeIndex(keys: set<string>, i: nat): (k: nat)
    requires i >= 1 && forall j :: 1 <= j < i ==> NsPrefix(j) in keys
    ensures k >= i && NsPrefix(k) !in keys && forall j :: 1 <= j < k ==> NsPrefix(j) in keys
    decreases |keys| + 1 - i
  {
    TakenPrefixesBound(keys, i);
    if NsPrefix(i) !in keys then i else FreeIndex(keys, i + 1)
  }

  // ---------------------------------------------------------------------
  // The writes of each token

  /** _writeAttStr: ` name="value"`, the value escaped. */
  function AttWrite(name: string, value: string): seq<string> {
    [" ", name, "=", "\"", EscAttr(value), "\""]
  }

  lemma WrittenBack(ws: seq<seq<string>>, x: seq<string>, vs: seq<seq<string>>)
    requires vs == ws + [x]
    ensures Written(vs) == Written(ws) + Concat(x)
  {
    assert vs[..|ws|] == ws;
  }

  lemma ConcatBack(xs: seq<string>, x: string, ys: seq<string>)
    requires ys == xs + [x]
    ensures Concat(ys) == Concat(xs) + x
  {
    assert ys[..|xs|] == xs;
  }

  lemma Concat2(a: string, b: string)
    ensures Concat([a, b]) == a + b
  {
    ConcatBack([], a, [a]);
    ConcatBack([a], b, [a, b]);
  }

  lemma Concat4(a: string, b: string, c: string, d: string)
    ensures Concat([a, b, c, d]) == a + b + c + d
  {
    Concat2(a, b);
    ConcatBack([a, b], c, [a, b, c]);
    ConcatBack([a, b, c], d, [a, b, c, d]);
  }

  lemma Concat6(a: string, b: string, c: string, d: string, e: string, f: string)
    ensures Concat([a, b, c, d, e, f]) == a + b + c + d + e + f
  {
    Concat4(a, b, c, d);
    ConcatBack([a, b, c, d], e, [a, b, c, d, e]);
    ConcatBack([a, b, c, d, e], f, [a, b, c, d, e, f]);
  }

  lemma Written4(a: seq<string>, b: seq<string>, c: seq<string>, d: seq<string>)
    ensures Written([a, b, c, d]) == Concat(a) + Concat(b) + Concat(c) + Concat(d)
  {
    WrittenBack([], a, [a]);
    assert Written([a]) == Concat(a);
    WrittenBack([a], b, [a, b]);
    WrittenBack([a, b], c, [a, b, c]);
    WrittenBack([a, b, c], d, [a, b, c, d]);
  }

  lemma AttWriteText(name: string, value: string)
    ensures Concat(AttWrite(name, value)) == " " + name + "=\"" + EscAttr(value) + "\""
  {
    Concat6(" ", name, "=", "\"", EscAttr(value), "\"");
  }

  /** The writes of dec(version, encoding, standalone). */
  function DecWrites(version: string, encoding: Option<string>, standalone: Option<bool>): seq<seq<string>> {
    [["<?xml"], AttWrite("version", version)] + DecOptions(encoding, standalone) + [["?", ">"]]
  }

  /** The optional pseudo-attributes of the declaration: the encoding when given and non-empty, then standalone when given. */
  function DecOptions(encoding: Option<string>, standalone: Option<bool>): seq<seq<string>> {
    (if Truthy(encoding) then [AttWrite("encoding", encoding.value)] else [])
    + (if standalone.Some? then [AttWrite("standalone", if standalone.value then "yes" else "no")] else [])
  }

  /** The declaration of section 2.8 of XML 1.0, for a version and an encoding name, standalone left out. */
  lemma EscapePlain(s: string)
    requires '&' !in s && '<' !in s && '>' !in s && '"' !in s && '\'' !in s
    ensures EscText(s) == s && EscAttr(s) == s
  {
    ReplaceAllAbsent(s, '&', "&amp;");
    ReplaceAllAbsent(s, '<', "&lt;");
    ReplaceAllAbsent(s, '>', "&gt;");
    ReplaceAllAbsent(s, '"', "&quot;");
    ReplaceAllAbsent(s, '\'', "&apos;");
  }

  lemma DecLiterals(e: string, enc: string)
    ensures "<?xml" + (" " + "version" + "=\"" + e + "\"") + (" " + "encoding" + "=\"" + enc + "\"") + ("?" + ">")
         == "<?xml version=\"" + e + "\" encoding=\"" + enc + "\"?>"
  {
  }

  lemma DecText(version: string, encoding: string)
    requires encoding != "" && '&' !in encoding && '<' !in encoding && '>' !in encoding
    requires '"' !in encoding && '\'' !in encoding
    ensures Written(DecWrites(version, Some(encoding), None))
         == "<?xml version=\"" + EscAttr(version) + "\" encoding=\"" + encoding + "\"?>"
  {
    var e := EscAttr(version);
    var a, b, c, d := ["<?xml"], AttWrite("version", version), AttWrite("encoding", encoding), ["?", ">"];
    calc {
      Written(DecWrites(version, Some(encoding), None));
      { assert DecWrites(version, Some(encoding), None) == [a, b, c, d]; }
      Written([a, b, c, d]);
      { Written4(a, b, c, d); }
      Concat(a) + Concat(b) + Concat(c) + Concat(d);
      { assert Concat(a) == "<?xml" by { ConcatBack([], "<?xml", a); }
        assert Concat(d) == "?" + ">" by { Concat2("?", ">"); }
        assert Concat(b) == " " + "version" + "=\"" + e + "\"" by { AttWriteText("version", version); }
        assert Concat(c) == " " + "encoding" + "=\"" + encoding + "\"" by {
          AttWriteText("encoding", encoding);
          EscapePlain(encoding);
        } }
      "<?xml" + (" " + "version" + "=\"" + e + "\"") + (" " + "encoding" + "=\"" + encoding + "\"") + ("?" + ">");
      { DecLiterals(e, encoding); }
      "<?xml version=\"" + e + "\" encoding=\"" + encoding + "\"?>";
    }
  }

  /** The write that closes an open start tag: `>` when still open, nothing otherwise. */
  function CloseWrites(stack: seq<Context>): seq<seq<string>> {
    if stack != [] && !stack[|stack| - 1].closed then [[">"]] else []
  }

  /** The stack after _closeOpenTagIfNeeded on its top. */
  function CloseTop(stack: seq<Context>): (s: seq<Context>)
    ensures |s| == |stack|
  {
    if stack == [] then [] else stack[|stack| - 1 := stack[|stack| - 1].(closed := true)]
  }

  /** Closing the top and pushing a new context one level deeper keeps the depths and the closed ancestors. */
  lemma PushKeepsShape(stack: seq<Context>, name: string)
    requires forall i :: 0 <= i < |stack| ==> stack[i].depth == i + 1
    requires forall i :: 0 <= i < |stack| - 1 ==> stack[i].closed
    ensures var s := CloseTop(stack) + [NewContext(name, |stack| + 1)];
      (forall i :: 0 <= i < |s| ==> s[i].depth == i + 1) && (forall i :: 0 <= i < |s| - 1 ==> s[i].closed)
  {
    var s := CloseTop(stack) + [NewContext(name, |stack| + 1)];
    forall i | 0 <= i < |s|
      ensures s[i].depth == i + 1 && (i < |s| - 1 ==> s[i].closed)
    {
      if i < |stack| {
        assert s[i] == CloseTop(stack)[i];
      }
    }
  }

  /** A start tag is closed at most once: closing again writes nothing and changes nothing. */
  lemma CloseOnce(stack: seq<Context>)
    requires stack != []
    ensures CloseWrites(CloseTop(stack)) == [] && CloseTop(CloseTop(stack)) == CloseTop(stack)
    ensures CloseTop(stack)[..|stack| - 1] == stack[..|stack| - 1]
    ensures CloseTop(stack)[|stack| - 1] == stack[|stack| - 1].(closed := true)
  {
  }

  /** The written name of a new element: `prefix:n` with the prefix found for `ns` (or `ns` itself), else `n`. */
  function ElementName(stack: seq<Context>, ns: Option<string>, n: string): string {
    if Truthy(ns) then
      var p := PrefixOf(stack, ns.value);
      (if p.Some? then p.value else ns.value) + ":" + n
    else n
  }

  /** The outcome of att(): an error (with the state it leaves), or the new stack and the writes. */
  datatype AttOutcome = AttOutcome(error: Option<string>, stack: seq<Context>, written: seq<seq<string>>)

  /** A fresh `ns<k>` prefix can always be registered, and registering it keeps the element's name, depth and state. */
  lemma FreshPrefixRegisters(ctx: Context, ns: string)
    ensures var p := NsPrefix(FreeIndex(ctx.prefix2ns.Keys, 1));
      var r := RegisterNamespace(ctx, p, ns);
      r.Ok? && r.value.depth == ctx.depth && r.value.closed == ctx.closed && r.value.name == ctx.name
  {
    var p := NsPrefix(FreeIndex(ctx.prefix2ns.Keys, 1));
    assert p[..2] == "ns";
    assert p != XmlPrefix && p != XmlnsPrefix;
    assert !BoundIn(ctx.prefix2ns, p);
  }

  function SetTop(stack: seq<Context>, c: Context): seq<Context>
    requires stack != []
  {
    stack[|stack| - 1 := c]
  }

  /**
   * att(ns, n, v): refused without an open start tag; a namespace
   * declaration registers its binding on the current element; a namespaced
   * attribute uses the innermost prefix of its namespace, declaring a fresh
   * `ns<k>` on the current element when there is none.
   */
  function AttSpec(stack: seq<Context>, ns: Option<string>, n: string, v: string): (o: AttOutcome)
    ensures o.error.Some? ==> o.written == [] && |o.stack| == |stack|
    ensures o.error.None? ==> stack != [] && |o.stack| == |stack| && o.stack[..|stack| - 1] == stack[..|stack| - 1]
  {
    if stack == [] then AttOutcome(Some("att() without open element"), stack, [])
    else if stack[|stack| - 1].closed then
      AttOutcome(Some("att() after start tag closed for <" + stack[|stack| - 1].name + ">"), stack, [])
    else if IsXmlnsDecl(ns, n) then DeclSpec(stack, ns, n, v)
    else AttributeSpec(stack, ns, n, v)
  }

  /** A namespace declaration on the open element: the binding is registered (`xmlns` also sets the default namespace, even when registration fails) and written. */
  function DeclSpec(stack: seq<Context>, ns: Option<string>, n: string, v: string): (o: AttOutcome)
    requires stack != [] && IsXmlnsDecl(ns, n)
    ensures o.error.Some? ==> o.written == [] && |o.stack| == |stack|
    ensures o.error.None? ==> |o.stack| == |stack| && o.stack[..|stack| - 1] == stack[..|stack| - 1]
  {
    var ctx := stack[|stack| - 1];
    var ctx1 := if n == XmlnsPrefix then ctx.(defaultNs := Some(v)) else ctx;
    var prefix := if n == XmlnsPrefix then "" else if !Truthy(ns) then n[6..] else n;
    var name := if n == XmlnsPrefix || !Truthy(ns) then n else ns.value + ":" + n;
    var reg := RegisterNamespace(ctx1, prefix, v);
    if reg.Err? then AttOutcome(Some(reg.error), SetTop(stack, ctx1), [])
    else AttOutcome(None, SetTop(stack, reg.value.(lastToken := Some(Attribute))), [AttWrite(name, v)])
  }

  /** An ordinary attribute on the open element, qualified by the prefix of its namespace when it has one. */
  function AttributeSpec(stack: seq<Context>, ns: Option<string>, n: string, v: string): (o: AttOutcome)
    requires stack != []
    ensures o.error.None? && |o.stack| == |stack| && o.stack[..|stack| - 1] == stack[..|stack| - 1]
  {
    var ctx := stack[|stack| - 1];
    if Truthy(ns) then
      var found := PrefixOf(stack, ns.value);
      if found.Some? then
        AttOutcome(None, SetTop(stack, ctx.(lastToken := Some(Attribute))), [AttWrite(found.value + ":" + n, v)])
      else
        var p := NsPrefix(FreeIndex(ctx.prefix2ns.Keys, 1));
        assert p[..2] == "ns";
        var bound := RegisterNamespace(ctx, p, ns.value).value;
        AttOutcome(None, SetTop(stack, bound.(lastToken := Some(Attribute))),
                   [AttWrite(XmlnsPrefix + ":" + p, ns.value), AttWrite(p + ":" + n, v)])
    else AttOutcome(None, SetTop(stack, ctx.(lastToken := Some(Attribute))), [AttWrite(n, v)])
  }

  /** att() fails exactly without an open start tag or when a namespace declaration cannot be registered. */
  lemma AttErrors(stack: seq<Context>, ns: Option<string>, n: string, v: string)
    ensures AttSpec(stack, ns, n, v).error.Some? <==>
      stack == [] || stack[|stack| - 1].closed
      || (IsXmlnsDecl(ns, n)
          && RegisterNamespace(if n == XmlnsPrefix then stack[|stack| - 1].(defaultNs := Some(v)) else stack[|stack| - 1],
                               if n == XmlnsPrefix then "" else if !Truthy(ns) then n[6..] else n, v).Err?)
  {
    if stack != [] && !stack[|stack| - 1].closed && !IsXmlnsDecl(ns, n) && Truthy(ns) && PrefixOf(stack, ns.value).None? {
      var ctx := stack[|stack| - 1];
      var k := FreeIndex(ctx.prefix2ns.Keys, 1);
      assert NsPrefix(k)[..2] == "ns";
      assert NsPrefix(k) != XmlPrefix && NsPrefix(k) != XmlnsPrefix;
    }
  }

  /** A namespaced attribute is written with a prefix that, afterwards, the current element or an outer one binds to its namespace. */
  lemma AttPrefixBound(stack: seq<Context>, ns: string, n: string, v: string)
    requires stack != [] && ns != ""
    ensures var o := AttributeSpec(stack, Some(ns), n, v);
      var p := PrefixOf(o.stack, ns);
      p.Some? && o.written[|o.written| - 1] == AttWrite(p.value + ":" + n, v)
  {
    var o := AttributeSpec(stack, Some(ns), n, v);
    var ctx := stack[|stack| - 1];
    if PrefixOf(stack, ns).None? {
      var p := NsPrefix(FreeIndex(ctx.prefix2ns.Keys, 1));
      assert p[..2] == "ns";
      assert !BoundIn(ctx.ns2prefix, ns);
      var bound := RegisterNamespace(ctx, p, ns).value;
      assert bound.ns2prefix == ctx.ns2prefix[ns := p];
      assert o.stack[|o.stack| - 1].ns2prefix == bound.ns2prefix;
      assert FindLevel(o.stack, ns, |o.stack|) == |o.stack| - 1;
    } else {
      SetTopSameBindings(stack, ctx.(lastToken := Some(Attribute)), ns);
    }
  }

  /** Changing the top context without touching its namespace-to-prefix map keeps every lookup. */
  lemma SetTopSameBindings(stack: seq<Context>, c: Context, ns: string)
    requires stack != [] && c.ns2prefix == stack[|stack| - 1].ns2prefix
    ensures PrefixOf(SetTop(stack, c), ns) == PrefixOf(stack, ns)
  {
    var t := SetTop(stack, c);
    assert forall j :: 0 <= j < |stack| ==> t[j].ns2prefix == stack[j].ns2prefix;
    FindLevelSameBindings(stack, t, ns, |stack|);
  }

  lemma {:induction false} FindLevelSameBindings(s: seq<Context>, t: seq<Context>, ns: string, n: nat)
    requires n <= |s| == |t| && forall j :: 0 <= j < |s| ==> s[j].ns2prefix == t[j].ns2prefix
    ensures FindLevel(s, ns, n) == FindLevel(t, ns, n)
    decreases n
  {
    if n > 0 {
      FindLevelSameBindings(s, t, ns, n - 1);
    }
  }

  // ---------------------------------------------------------------------
  // The builder

  class XmlBuilder {
    const w: WriteLog
    var stack: seq<Context>
    var d: int

    /** The depth counter is the stack height, each context knows its depth, and every context below the top has its start tag closed. */
    ghost predicate Valid()
      reads this
    {
      d == |stack|
      && (forall i :: 0 <= i < |stack| ==> stack[i].depth == i + 1)
      && (forall i :: 0 <= i < |stack| - 1 ==> stack[i].closed)
    }

    constructor (w: WriteLog)
      ensures this.w == w && stack == [] && d == 0 && Valid()
    {
      this.w := w;
      stack := [];
      d := 0;
    }

    method WriteAttStr(name: string, value: string)
      modifies w
      ensures w.writes == old(w.writes) + [AttWrite(name, value)]
    {
      w.writes := w.writes + [AttWrite(name, value)];
    }

    /** dec(version, encoding, standalone): the XML declaration. */
    method Dec(version: string, encoding: Option<string>, standalone: Option<bool>) returns (self: XmlBuilder)
      modifies w
      ensures self == this && w.writes == old(w.writes) + DecWrites(version, encoding, standalone)
    {
      w.writes := w.writes + [["<?xml"]];
      WriteAttStr("version", version);
      WriteDecOptions(encoding, standalone);
      w.writes := w.writes + [["?", ">"]];
      return this;
    }

    method WriteDecOptions(encoding: Option<string>, standalone: Option<bool>)
      modifies w
      ensures w.writes == old(w.writes) + DecOptions(encoding, standalone)
    {
      if Truthy(encoding) {
        WriteAttStr("encoding", encoding.value);
      }
      if standalone.Some? {
        WriteAttStr("standalone", if standalone.value then "yes" else "no");
      }
    }

    /** _lookupPrefix: the contexts from the innermost outwards, the first non-empty prefix bound to `ns`. */
    method LookupPrefix(ns: string) returns (p: Option<string>)
      ensures p == PrefixOf(stack, ns)
    {
      var i := |stack| - 1;
      while i >= 0
        invariant -1 <= i < |stack|
        invariant FindLevel(stack, ns, |stack|) == FindLevel(stack, ns, i + 1)
      {
        var ctx := stack[i];
        if BoundIn(ctx.ns2prefix, ns) {
          return Some(ctx.ns2prefix[ns]);
        }
        i := i - 1;
      }
      return None;
    }

    /** _allocPrefix: ns1, ns2, ... until one is not bound in the context. */
    method AllocPrefix(ctx: Context) returns (p: string)
      ensures p == NsPrefix(FreeIndex(ctx.prefix2ns.Keys, 1))
    {
      var i := 1;
      while true
        invariant i >= 1 && forall j :: 1 <= j < i ==> NsPrefix(j) in ctx.prefix2ns.Keys
        invariant FreeIndex(ctx.prefix2ns.Keys, i) == FreeIndex(ctx.prefix2ns.Keys, 1)
        decreases |ctx.prefix2ns.Keys| + 1 - i
      {
        TakenPrefixesBound(ctx.prefix2ns.Keys, i);
        var q := NsPrefix(i);
        i := i + 1;
        if q !in ctx.prefix2ns {
          return q;
        }
      }
    }

    /** _closeOpenTagIfNeeded on the top context. */
    method CloseOpenTag()
      requires stack != []
      modifies this, w
      ensures stack == CloseTop(old(stack)) && d == old(d)
      ensures w.writes == old(w.writes) + CloseWrites(old(stack))
    {
      var ctx := stack[|stack| - 1];
      if !ctx.closed {
        w.writes := w.writes + [[">"]];
        stack := stack[|stack| - 1 := ctx.(closed := true)];
      }
    }

    /** att(ns, n, v). */
    method Att(ns: Option<string>, n: string, v: string) returns (r: Result<XmlBuilder>)
      requires Valid()
      modifies this, w
      ensures Valid() && d == old(d)
      ensures var o := AttSpec(old(stack), ns, n, v);
        (r.Err? <==> o.error.Some?) && (r.Ok? ==> r.value == this)
        && stack == o.stack && w.writes == old(w.writes) + o.written
    {
      if stack == [] {
        return Err("att() without open element");
      }
      var ctx := stack[|stack| - 1];
      if ctx.closed {
        return Err("att() after start tag closed for <" + ctx.name + ">");
      }
      if IsXmlnsDecl(ns, n) {
        r := AttDecl(ns, n, v);
      } else {
        AttAttribute(ns, n, v);
        r := Ok(this);
      }
    }

    /** The namespace-declaration branch of att(). */
    method AttDecl(ns: Option<string>, n: string, v: string) returns (r: Result<XmlBuilder>)
      requires Valid() && stack != [] && !stack[|stack| - 1].closed && IsXmlnsDecl(ns, n)
      modifies this, w
      ensures Valid() && d == old(d)
      ensures var o := DeclSpec(old(stack), ns, n, v);
        (r.Err? <==> o.error.Some?) && (r.Ok? ==> r.value == this)
        && stack == o.stack && w.writes == old(w.writes) + o.written
    {
      var ctx := stack[|stack| - 1];
      var prefix, name;
      if n == XmlnsPrefix {
        ctx := ctx.(defaultNs := Some(v));
        stack := stack[|stack| - 1 := ctx];
        prefix, name := "", XmlnsPrefix;
      } else if !Truthy(ns) {
        prefix, name := n[6..], n;
      } else {
        prefix, name := n, ns.value + ":" + n;
      }
      var reg := RegisterNamespace(ctx, prefix, v);
      if reg.Err? {
        return Err(reg.error);
      }
      WriteAttStr(name, v);
      stack := stack[|stack| - 1 := reg.value.(lastToken := Some(Attribute))];
      return Ok(this);
    }

    /** The ordinary-attribute branch of att(). */
    method AttAttribute(ns: Option<string>, n: string, v: string)
      requires Valid() && stack != [] && !stack[|stack| - 1].closed
      modifies this, w
      ensures Valid() && d == old(d)
      ensures var o := AttributeSpec(old(stack), ns, n, v);
        stack == o.stack && w.writes == old(w.writes) + o.written
    {
      var qn := n;
      if Truthy(ns) {
        var p := EnsurePrefixDeclared(ns.value);
        qn := p + ":" + n;
      }
      var ctx := stack[|stack| - 1];
      stack := stack[|stack| - 1 := ctx.(lastToken := Some(Attribute))];
      WriteAttStr(qn, v);
    }

    /**
     * _ensurePrefixDeclared: the innermost prefix of `ns`, or a fresh `ns<k>`
     * declared and registered on the current element. The caller has
     * already checked that the current start tag is open.
     */
    method EnsurePrefixDeclared(ns: string) returns (p: string)
      requires Valid() && stack != [] && !stack[|stack| - 1].closed
      modifies this, w
      ensures Valid() && d == old(d)
      ensures var found := PrefixOf(old(stack), ns);
        var top := old(stack)[|old(stack)| - 1];
        if found.Some? then
          p == found.value && stack == old(stack) && w.writes == old(w.writes)
        else
          p == NsPrefix(FreeIndex(top.prefix2ns.Keys, 1))
          && RegisterNamespace(top, p, ns).Ok?
          && stack == SetTop(old(stack), RegisterNamespace(top, p, ns).value)
          && w.writes == old(w.writes) + [AttWrite(XmlnsPrefix + ":" + p, ns)]
    {
      var found := LookupPrefix(ns);
      if found.Some? {
        return found.value;
      }
      var ctx := stack[|stack| - 1];
      p := AllocPrefix(ctx);
      FreshPrefixRegisters(ctx, ns);
      WriteAttStr(XmlnsPrefix + ":" + p, ns);
      stack := stack[|stack| - 1 := RegisterNamespace(ctx, p, ns).value];
    }

    /** ele(ns, n): the parent's start tag is closed, a context is pushed, and `<name` is written. */
    method Ele(ns: Option<string>, n: string) returns (self: XmlBuilder)
      requires Valid()
      modifies this, w
      ensures Valid() && self == this
      ensures stack == CloseTop(old(stack)) + [NewContext(ElementName(old(stack), ns, n), |old(stack)| + 1)]
      ensures w.writes == old(w.writes) + CloseWrites(old(stack)) + [["<", ElementName(old(stack), ns, n)]]
    {
      ghost var before := stack;
      if stack != [] {
        CloseOpenTag();
        if Truthy(ns) {
          SetTopSameBindings(before, before[|before| - 1].(closed := true), ns.value);
        }
      }
      var qns := n;
      if Truthy(ns) {
        var found := LookupPrefix(ns.value);
        var p := if found.Some? then found.value else ns.value;
        qns := p + ":" + n;
      }
      assert qns == ElementName(before, ns, n);
      PushKeepsShape(before, qns);
      d := d + 1;
      stack := stack + [NewContext(qns, d)];
      w.writes := w.writes + [["<", qns]];
      return this;
    }

    /** text(txt): refused without an open element; otherwise the start tag is closed and the escaped text written. */
    method Text(txt: string) returns (r: Result<XmlBuilder>)
      requires Valid()
      modifies this, w
      ensures Valid() && d == old(d)
      ensures old(stack) == [] ==> r.Err? && stack == old(stack) && w.writes == old(w.writes)
      ensures old(stack) != [] ==>
        r == Ok(this)
        && stack == SetTop(CloseTop(old(stack)), CloseTop(old(stack))[|old(stack)| - 1].(lastToken := Some(TextToken)))
        && w.writes == old(w.writes) + CloseWrites(old(stack)) + [[EscText(txt)]]
    {
      if stack == [] {
        return Err("text() without open element");
      }
      CloseOpenTag();
      stack := stack[|stack| - 1 := stack[|stack| - 1].(lastToken := Some(TextToken))];
      w.writes := w.writes + [[EscText(txt)]];
      return Ok(this);
    }

    /** end(): pops the current element, writing `/>` while its start tag is open and `</name>` otherwise. */
    method End() returns (self: XmlBuilder)
      requires Valid()
      modifies this, w
      ensures Valid() && self == this
      ensures old(stack) == [] ==> stack == [] && w.writes == old(w.writes)
      ensures old(stack) != [] ==>
        var top := old(stack)[|old(stack)| - 1];
        stack == old(stack)[..|old(stack)| - 1]
        && w.writes == old(w.writes) + [if top.closed then ["<", "/", top.name, ">"] else ["/", ">"]]
    {
      if stack != [] {
        var ctx := stack[|stack| - 1];
        stack := stack[..|stack| - 1];
        d := d - 1;
        if !ctx.closed {
          w.writes := w.writes + [["/", ">"]];
        } else {
          w.writes := w.writes + [["<", "/", ctx.name, ">"]];
        }
      }
      return this;
    }
  }

  /** An element opened and ended at once is written `<name/>`; with text in between, `<name>text</name>`. */
  lemma ElementTexts(name: string, txt: string)
    ensures Written([["<", name], ["/", ">"]]) == "<" + name + "/>"
    ensures Written([["<", name], [">"], [EscText(txt)], ["<", "/", name, ">"]])
         == "<" + name + ">" + EscText(txt) + "</" + name + ">"
  {
    SelfClosedText(name);
    EndedText(name, EscText(txt));
  }

  lemma SelfClosedText(name: string)
    ensures Written([["<", name], ["/", ">"]]) == "<" + name + "/>"
  {
    var o, sc := ["<", name], ["/", ">"];
    assert Concat(o) == "<" + name by { Concat2("<", name); }
    assert Concat(sc) == "/>" by { Concat2("/", ">"); }
    assert Written([o]) == Concat(o) by { WrittenBack([], o, [o]); }
    assert Written([o, sc]) == Written([o]) + Concat(sc) by { WrittenBack([o], sc, [o, sc]); }
  }

  lemma EndedText(name: string, e: string)
    ensures Written([["<", name], [">"], [e], ["<", "/", name, ">"]]) == "<" + name + ">" + e + "</" + name + ">"
  {
    assert Concat(["<", name]) == "<" + name by { Concat2("<", name); }
    assert Concat([">"]) == ">" by { ConcatBack([], ">", [">"]); }
    assert Concat([e]) == e by { ConcatBack([], e, [e]); }
    assert Concat(["<", "/", name, ">"]) == "</" + name + ">" by { Concat4("<", "/", name, ">"); }
    assert Written([["<", name], [">"], [e], ["<", "/", name, ">"]])
        == Concat(["<", name]) + Concat([">"]) + Concat([e]) + Concat(["<", "/", name, ">"]) by {
      Written4(["<", name], [">"], [e], ["<", "/", name, ">"]);
    }
  }
}
