/**
 * Packaging a 3MF document: the base serializer's default document
 * (unit, metadata, then the subclass's model), the streaming of its three
 * OPC parts into deflated zip entries through the UTF-8 byte writer, and
 * the helper that gathers the archive's chunks into one buffer.
 */
module ThreeMfPackage {
  import opened Wrappers
  import opened JsRuntime
  import opened XmlBuilding
  import opened XmlWriters
  import opened ThreeMfInterfaces
  import opened ThreeMfModel
  import opened ThreeMfOpc
  import opened ThreeMfBuilder

  // ---------------------------------------------------------------------
  // Options and the default document

  /**
   * The serializer options: the unit, and the metadata record as its
   * (key, value) pairs in the record's iteration order.
   */
  datatype Options = Options(unit: Option<Unit>, metadata: Option<seq<(string, string)>>)

  /** One metadata entry per pair, in order, with neither `preserve` nor `type`. */
  function MetaEntries(pairs: seq<(string, string)>): (r: seq<Metadata>)
    ensures |r| == |pairs|
    ensures forall i :: 0 <= i < |pairs| ==>
      r[i].name == pairs[i].0 && r[i].value == pairs[i].1 && r[i].preserve.None? && r[i].kind.None?
  {
    if pairs == [] then []
    else MetaEntries(pairs[..|pairs| - 1]) + [NewMeta(pairs[|pairs| - 1].0, pairs[|pairs| - 1].1, None, None)]
  }

  /**
   * The model the builder holds when it is handed to toModel: the option's
   * unit or millimeter, and the metadata entries when at least one was given.
   */
  function PreparedModel(o: Options): (m: Model)
    ensures m.unit == Some(o.unit.GetOr(Millimeter))
    ensures m.metadata.Some? <==> o.metadata.Some? && o.metadata.value != []
    ensures m.metadata.Some? ==> m.metadata.value == MetaEntries(o.metadata.value)
    ensures m.requiredextensions.None? && m.recommendedextensions.None?
    ensures m.resources.None? && m.build.None?
  {
    var base := NewModel().(unit := Some(o.unit.GetOr(Millimeter)));
    if o.metadata.Some? && o.metadata.value != [] then base.(metadata := Some(MetaEntries(o.metadata.value)))
    else base
  }

  /**
   * toDocument(...meshes) of the base serializer: a model builder set up
   * from the options is given to toModel, whose model goes into a document
   * builder; the build cannot fail, because a model is always present, and
   * it adds the default relationship to the model part.
   */
  method ToDocument(o: Options, toModel: Model -> Model) returns (r: Result<Document>)
    ensures r.Ok?
    ensures r.value.model == toModel(PreparedModel(o))
    ensures r.value.relationships.items == [DefaultRelationship]
    ensures ModelPartContentType in r.value.contentTypes.items && RelsContentType in r.value.contentTypes.items
    ensures r.value.contentTypes.items == [ModelPartContentType, RelsContentType]
  {
    var b := new ModelBuilder();
    var _ := b.WithUnit(if o.unit.Some? then o.unit.value else Millimeter);
    if o.metadata.Some? {
      var pairs := o.metadata.value;
      var i := 0;
      while i < |pairs|
        invariant 0 <= i <= |pairs|
        invariant b.model == PreparedModel(Options(o.unit, Some(pairs[..i])))
      {
        assert pairs[..i + 1][..i] == pairs[..i];
        var _ := b.WithMetaData(pairs[i].0, pairs[i].1, None, None);
        i := i + 1;
      }
      assert pairs[..i] == pairs;
    }
    var db := new DocumentBuilder();
    db.WithModel(toModel(b.model));
    r := db.Build();
  }

  // ---------------------------------------------------------------------
  // The zip target

  /** The zip library the host supplies: absent, or with or without its Zip and ZipDeflate constructors. */
  datatype ZipLib = ZipLib(hasZip: bool, hasZipDeflate: bool)

  /** What the serializer asks of the zip target: an entry added (its name, level and byte sink), or the end. */
  datatype ZipEvent = Added(name: string, level: nat, sink: ByteSink) | Ended

  /** The zip target seen through its interface: the calls it receives, in order. */
  class ZipTarget {
    var events: seq<ZipEvent>

    constructor ()
      ensures events == []
    {
      events := [];
    }

    method Add(name: string, level: nat, sink: ByteSink)
      modifies this
      ensures events == old(events) + [Added(name, level, sink)]
    {
      events := events + [Added(name, level, sink)];
    }

    method End()
      modifies this
      ensures events == old(events) + [Ended]
    {
      events := events + [Ended];
    }
  }

  /** The compression level every entry is created with. */
  const EntryLevel := 6

  /** The declaration every part starts with. */
  const XmlDeclaration := "<?xml version=\"1.0\" encoding=\"UTF-8\"?>"

  /** `dec("1.0", "UTF-8")` writes exactly the declaration. */
  lemma DeclarationWrites()
    ensures Written(DecWrites("1.0", Some("UTF-8"), None)) == XmlDeclaration
  {
    EscapePlain("1.0");
    assert '&' !in "UTF-8" && '<' !in "UTF-8" && '>' !in "UTF-8" && '"' !in "UTF-8" && '\'' !in "UTF-8" by {
      PlainEncodingName();
    }
    DecText("1.0", "UTF-8");
    DeclarationLiterals();
  }

  lemma PlainEncodingName()
    ensures '&' !in "UTF-8" && '<' !in "UTF-8" && '>' !in "UTF-8" && '"' !in "UTF-8" && '\'' !in "UTF-8"
  {
  }

  lemma DeclarationLiterals()
    ensures "<?xml version=\"" + "1.0" + "\" encoding=\"" + "UTF-8" + "\"?>" == XmlDeclaration
  {
  }

  /**
   * A finished entry stream: its bytes are the UTF-8 of `text`, and it ends
   * with one empty chunk marked final, the only final chunk.
   */
  predicate Finished(ps: seq<(seq<byte>, bool)>, text: string) {
    Bytes(ps) == Utf8Encode(text)
    && ps != [] && ps[|ps| - 1] == ([], true)
    && forall j :: 0 <= j < |ps| - 1 ==> !ps[j].1
  }

  /**
   * serializeEntry(target, name, object): a deflate entry of level 6 is
   * added, the XML declaration and then the serializer's output are written
   * through a UTF-8 writer with the default flush threshold, and the writer
   * is finished. `body` is the sequence of write calls the serializer's
   * builder calls make for the part.
   */
  method SerializeEntry(target: ZipTarget, name: string, body: seq<seq<string>>) returns (sink: ByteSink)
    modifies target
    ensures fresh(sink)
    ensures target.events == old(target.events) + [Added(name, EntryLevel, sink)]
    ensures Finished(sink.pushed, XmlDeclaration + Written(body))
  {
    sink := new ByteSink();
    target.Add(name, EntryLevel, sink);
    WriteEntry(sink, "1.0", "UTF-8", body);
    DeclarationWrites();
  }

  /**
   * The writing half of serializeEntry, on the entry's fresh sink: the
   * declaration and the body go through a UTF-8 writer with the default
   * threshold, which is then finished.
   */
  method WriteEntry(sink: ByteSink, version: string, encoding: string, body: seq<seq<string>>)
    requires sink.pushed == []
    modifies sink
    ensures Finished(sink.pushed, Written(DecWrites(version, Some(encoding), None)) + Written(body))
  {
    var ws := DeclaredWrites(version, encoding, body);
    Stream(sink, ws);
    WrittenAppend(DecWrites(version, Some(encoding), None), body);
  }

  /** The write calls of a builder on which `dec(version, encoding)` is called before the serializer's calls. */
  method DeclaredWrites(version: string, encoding: string, body: seq<seq<string>>) returns (ws: seq<seq<string>>)
    ensures ws == DecWrites(version, Some(encoding), None) + body
  {
    var log := new WriteLog();
    var b := new XmlBuilder(log);
    var _ := b.Dec(version, Some(encoding), None);
    log.writes := log.writes + body;
    ws := log.writes;
  }

  /** A fresh UTF-8 writer on `sink` receives the write calls `ws` and is finished. */
  method Stream(sink: ByteSink, ws: seq<seq<string>>)
    requires sink.pushed == []
    modifies sink
    ensures Finished(sink.pushed, Written(ws))
  {
    var w := new Utf8XmlWriterToBytes(sink, None);
    Forward(w, ws);
    ghost var before, pending := sink.pushed, w.pending;
    w.Finish();
    FinalChunkLast(before, if pending == "" then [] else [(Utf8Encode(pending), false)], sink.pushed);
  }

  /** Appending non-final chunks and then the final empty one leaves exactly one final chunk, the last. */
  lemma FinalChunkLast(before: seq<(seq<byte>, bool)>, flushed: seq<(seq<byte>, bool)>, ps: seq<(seq<byte>, bool)>)
    requires forall j :: 0 <= j < |before| ==> !before[j].1
    requires forall j :: 0 <= j < |flushed| ==> !flushed[j].1
    requires ps == before + flushed + [([], true)]
    ensures ps != [] && ps[|ps| - 1] == ([], true)
    ensures forall j :: 0 <= j < |ps| - 1 ==> !ps[j].1
  {
    forall j | 0 <= j < |ps| - 1
      ensures !ps[j].1
    {
      if j < |before| {
        assert ps[j] == before[j];
      } else {
        assert ps[j] == flushed[j - |before|];
      }
    }
  }

  /** No chunk pushed so far is marked final. */
  predicate NoFinal(ps: seq<(seq<byte>, bool)>) {
    forall j :: 0 <= j < |ps| ==> !ps[j].1
  }

  /**
   * The builder's write calls reach the writer in the order they were
   * made; no chunk pushed meanwhile is final.
   */
  method Forward(w: Utf8XmlWriterToBytes, ws: seq<seq<string>>)
    requires w.Valid() && w.Accepted() == ""
    requires NoFinal(w.sink.pushed)
    modifies w, w.sink
    ensures w.Valid() && w.Accepted() == Written(ws)
    ensures NoFinal(w.sink.pushed)
  {
    var k := 0;
    while k < |ws|
      invariant 0 <= k <= |ws|
      invariant w.Valid()
      invariant w.Accepted() == Written(ws[..k])
      invariant NoFinal(w.sink.pushed)
    {
      ForwardOne(w, ws[k]);
      WrittenBack(ws[..k], ws[k], ws[..k + 1]);
      k := k + 1;
    }
    assert ws[..k] == ws;
  }

  /** One write call: its text is accepted, and whatever it flushes is not final. */
  method ForwardOne(w: Utf8XmlWriterToBytes, data: seq<string>)
    requires w.Valid() && NoFinal(w.sink.pushed)
    modifies w, w.sink
    ensures w.Valid() && w.Accepted() == old(w.Accepted()) + Concat(data)
    ensures NoFinal(w.sink.pushed)
  {
    ghost var before := w.sink.pushed;
    var _ := w.Write(data);
    assert w.sink.pushed == before || exists c :: w.sink.pushed == before + [(c, false)];
  }

  /** The three OPC parts of a document. */
  datatype Part = ContentTypesPart(contentTypes: ContentTypes)
                | RelationshipsPart(relationships: Relationships)
                | ModelPart(model: Model)

  const ZipUnavailable := "fflate Zip / ZipDeflate not available"

  /**
   * serializeAsync(sink, ...meshes): nothing without a zip library; an
   * error when the library lacks Zip or ZipDeflate; the toDocument error,
   * if it throws; nothing when there is no document; otherwise one zip
   * target receiving the content types, the relationships and the model,
   * in that order, each a finished entry, and then the end of the archive.
   * `lib` is what ensureZipLibReadyAsync resolved to, `doc` the outcome of
   * toDocument, and `render` the write calls the serializer makes for a part.
   */
  method SerializeAsync(lib: Option<ZipLib>, doc: Result<Option<Document>>, render: Part -> seq<seq<string>>)
    returns (r: Result<()>, target: Option<ZipTarget>)
    ensures lib.None? ==> r.Ok? && target.None?
    ensures lib.Some? && !(lib.value.hasZip && lib.value.hasZipDeflate) ==> r == Err(ZipUnavailable) && target.None?
    ensures lib.Some? && lib.value.hasZip && lib.value.hasZipDeflate ==>
      (doc.Err? ==> r == Err(doc.error) && target.None?)
      && (doc == Ok(None) ==> r.Ok? && target.None?)
      && (doc.Ok? && doc.value.Some? ==> r.Ok? && target.Some? && fresh(target.value) && Archived(target.value.events, doc.value.value, render))
  {
    if lib.None? {
      return Ok(()), None;
    }
    if !lib.value.hasZip || !lib.value.hasZipDeflate {
      return Err(ZipUnavailable), None;
    }
    if doc.Err? {
      return Err(doc.error), None;
    }
    if doc.value.None? {
      return Ok(()), None;
    }
    var d := doc.value.value;
    var t := new ZipTarget();
    var s1 := SerializeEntry(t, ContentTypeFileName, render(ContentTypesPart(d.contentTypes)));
    var s2 := SerializeEntry(t, RelationshipDirName + RelationshipFileName, render(RelationshipsPart(d.relationships)));
    var s3 := SerializeEntry(t, Object3dDirName + ModelFileName, render(ModelPart(d.model)));
    t.End();
    return Ok(()), Some(t);
  }

  /**
   * The calls a zip target receives for a document: the three parts at
   * their OPC names, each a finished level-6 entry holding the declaration
   * and the part's XML, then the end.
   */
  ghost predicate Archived(events: seq<ZipEvent>, d: Document, render: Part -> seq<seq<string>>)
    reads set e | e in events && e.Added? :: e.sink
  {
    |events| == 4 && events[3] == Ended
    && events[0].Added? && events[1].Added? && events[2].Added?
    && events[0].name == ContentTypeFileName
    && events[1].name == RelationshipDirName + RelationshipFileName
    && events[2].name == Object3dDirName + ModelFileName
    && events[0].level == EntryLevel && events[1].level == EntryLevel && events[2].level == EntryLevel
    && Finished(events[0].sink.pushed, XmlDeclaration + Written(render(ContentTypesPart(d.contentTypes))))
    && Finished(events[1].sink.pushed, XmlDeclaration + Written(render(RelationshipsPart(d.relationships))))
    && Finished(events[2].sink.pushed, XmlDeclaration + Written(render(ModelPart(d.model))))
  }

  // ---------------------------------------------------------------------
  // SerializeToMemoryAsync

  /** The chunks laid end to end. */
  function Flatten(chunks: seq<seq<byte>>): (r: seq<byte>) {
    if chunks == [] then [] else Flatten(chunks[..|chunks| - 1]) + chunks[|chunks| - 1]
  }

  /** The sum of the chunk lengths. */
  function TotalLength(chunks: seq<seq<byte>>): nat {
    if chunks == [] then 0 else TotalLength(chunks[..|chunks| - 1]) + |chunks[|chunks| - 1]|
  }

  lemma {:induction false} FlattenLength(chunks: seq<seq<byte>>)
    ensures |Flatten(chunks)| == TotalLength(chunks)
  {
    if chunks != [] {
      FlattenLength(chunks[..|chunks| - 1]);
    }
  }

  /** The sink callback of SerializeToMemoryAsync: every chunk kept, its length added to the size. */
  class MemorySink {
    var chunks: seq<seq<byte>>
    var size: nat

    ghost predicate Valid()
      reads this
    {
      size == TotalLength(chunks)
    }

    constructor ()
      ensures chunks == [] && size == 0 && Valid()
    {
      chunks := [];
      size := 0;
    }

    /** The error and the final flag are ignored. */
    method Push(err: Option<string>, chunk: seq<byte>, final: bool)
      requires Valid()
      modifies this
      ensures Valid() && chunks == old(chunks) + [chunk] && size == old(size) + |chunk|
    {
      assert (chunks + [chunk])[..|chunks|] == chunks;
      chunks := chunks + [chunk];
      size := size + |chunk|;
    }
  }

  /**
   * The buffering step of SerializeToMemoryAsync: undefined when nothing
   * was written; otherwise a buffer of exactly `size` bytes holding the
   * chunks in arrival order.
   */
  method ToBuffer(s: MemorySink) returns (r: Option<array<byte>>)
    requires s.Valid()
    ensures r.None? <==> s.size == 0
    ensures r.Some? ==> fresh(r.value) && r.value.Length == s.size && r.value[..] == Flatten(s.chunks)
  {
    if s.size == 0 {
      return None;
    }
    var chunks := s.chunks;
    FlattenLength(chunks);
    var buffer := new byte[s.size];
    assert chunks[0..] == chunks;
    var off := 0;
    var k := 0;
    while k < |chunks|
      invariant 0 <= k <= |chunks|
      invariant off == |Flatten(chunks[..k])|
      invariant off + |Flatten(chunks[k..])| == buffer.Length
      invariant buffer[..off] == Flatten(chunks[..k])
    {
      var c := chunks[k];
      FlattenSplit(chunks, k);
      CopyChunk(buffer, off, c);
      assert buffer[..off + |c|] == Flatten(chunks[..k + 1]) by { FlattenSnoc(chunks, k); }
      off := off + |c|;
      FlattenSplit(chunks, k + 1);
      k := k + 1;
    }
    assert chunks[..k] == chunks;
    return Some(buffer);
  }

  /** `buffer.set(c, off)`: the chunk is copied at the offset, and what lies before it is kept. */
  method CopyChunk(buffer: array<byte>, off: nat, c: seq<byte>)
    requires off + |c| <= buffer.Length
    modifies buffer
    ensures buffer[..off + |c|] == old(buffer[..off]) + c
  {
    forall i | 0 <= i < |c| {
      buffer[off + i] := c[i];
    }
    assert buffer[..off + |c|] == old(buffer[..off]) + c by {
      assert forall i :: 0 <= i < off ==> buffer[i] == old(buffer[i]);
    }
  }

  /** Laying out one more chunk appends it. */
  lemma FlattenSnoc(chunks: seq<seq<byte>>, k: nat)
    requires k < |chunks|
    ensures Flatten(chunks[..k + 1]) == Flatten(chunks[..k]) + chunks[k]
  {
    assert chunks[..k + 1][..k] == chunks[..k];
  }

  lemma {:induction false} FlattenAppend(a: seq<seq<byte>>, b: seq<seq<byte>>)
    ensures Flatten(a + b) == Flatten(a) + Flatten(b)
    decreases |b|
  {
    if b == [] {
      assert a + b == a;
    } else {
      var init, last := b[..|b| - 1], b[|b| - 1];
      assert (a + b)[..|a + b| - 1] == a + init;
      assert (a + b)[|a + b| - 1] == last;
      assert Flatten(b) == Flatten(init) + last;
      calc {
        Flatten(a + b);
        Flatten(a + init) + last;
        { FlattenAppend(a, init); }
        Flatten(a) + Flatten(init) + last;
      }
    }
  }

  lemma FlattenSplit(chunks: seq<seq<byte>>, k: nat)
    requires k <= |chunks|
    ensures |Flatten(chunks[..k])| + |Flatten(chunks[k..])| == |Flatten(chunks)|
    ensures k < |chunks| ==> |Flatten(chunks[k..])| >= |chunks[k]|
  {
    assert chunks == chunks[..k] + chunks[k..];
    FlattenAppend(chunks[..k], chunks[k..]);
    if k < |chunks| {
      assert chunks[k..] == [chunks[k]] + chunks[k + 1..];
      FlattenAppend([chunks[k]], chunks[k + 1..]);
      assert Flatten([chunks[k]]) == chunks[k] by {
        assert [chunks[k]][..0] == [];
      }
    }
  }
}
