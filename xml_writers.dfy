/**
 * The two IXmlWriter implementations: StringXmlWriter keeps one chunk per
 * write call and joins them on demand; Utf8XmlWriterToBytes buffers text and
 * pushes its UTF-8 encoding (RFC 3629) to a byte sink once enough has
 * accumulated, then ends the stream with an empty final chunk.
 */
module XmlWriters {
  import opened Wrappers
  import opened JsRuntime

  // ---------------------------------------------------------------------
  // StringXmlWriter

  class StringXmlWriter {
    var count: nat
    var chunks: seq<string>

    /** `count` is the UTF-16 length of everything written since the last clear. */
    ghost predicate Valid()
      reads this
    {
      count == Utf16Length(Concat(chunks))
    }

    constructor ()
      ensures chunks == [] && count == 0 && Valid()
    {
      count := 0;
      chunks := [];
    }

    /** write(...data): nothing for no arguments; otherwise one chunk, the arguments joined. */
    method Write(data: seq<string>) returns (self: StringXmlWriter)
      requires Valid()
      modifies this
      ensures Valid() && self == this
      ensures data == [] ==> chunks == old(chunks) && count == old(count)
      ensures data != [] ==>
        chunks == old(chunks) + [Concat(data)] && count == old(count) + Utf16Length(Concat(data))
      ensures ToString() == old(ToString()) + Concat(data)
    {
      if data == [] {
        return this;
      }
      var s := Concat(data);
      ConcatBack(chunks, s);
      Utf16LengthAppend(Concat(chunks), s);
      chunks := chunks + [s];
      count := count + Utf16Length(s);
      assert ToString() == old(ToString()) + s;
      return this;
    }

    /** toString(): the chunks joined, whose length is the running count. */
    function ToString(): (s: string)
      reads this
      ensures Valid() ==> Utf16Length(s) == count
    {
      Concat(chunks)
    }

    /** clear(): no chunks and a zero count. */
    method Clear()
      modifies this
      ensures chunks == [] && count == 0 && Valid() && ToString() == ""
    {
      chunks := [];
      count := 0;
    }
  }

  lemma ConcatBack(xs: seq<string>, x: string)
    ensures Concat(xs + [x]) == Concat(xs) + x
  {
    assert (xs + [x])[..|xs|] == xs;
  }

  // ---------------------------------------------------------------------
  // Utf8XmlWriterToBytes

  /** The ByteSink seen through its interface: every pushed chunk with its `final` flag. */
  class ByteSink {
    var pushed: seq<(seq<byte>, bool)>

    constructor ()
      ensures pushed == []
    {
      pushed := [];
    }

    /** The empty chunk that ends the stream: it adds no bytes. */
    method PushFinal()
      modifies this
      ensures pushed == old(pushed) + [([], true)]
      ensures Bytes(pushed) == Bytes(old(pushed))
    {
      BytesBack(pushed, ([], true));
      assert Bytes(pushed) + [] == Bytes(pushed);
      pushed := pushed + [([], true)];
    }
  }

  /** The bytes of a run of pushed chunks, one after the other. */
  function Bytes(ps: seq<(seq<byte>, bool)>): seq<byte> {
    if ps == [] then [] else Bytes(ps[..|ps| - 1]) + ps[|ps| - 1].0
  }

  lemma BytesBack(ps: seq<(seq<byte>, bool)>, p: (seq<byte>, bool))
    ensures Bytes(ps + [p]) == Bytes(ps) + p.0
  {
    assert (ps + [p])[..|ps|] == ps;
  }

  /** The default flush threshold, 64 * 1024 UTF-16 code units. */
  const DefaultFlushChars := 65536

  class Utf8XmlWriterToBytes {
    var count: nat
    var pending: string
    var pendingChars: nat
    const sink: ByteSink
    const flushChars: Option<int>
    /** The text whose bytes went to the sink, in order. */
    ghost var flushed: string
    /** How many bytes the sink held at the last clear. */
    ghost var mark: nat

    /**
     * The sink holds exactly the UTF-8 of the flushed text, `count` is the
     * number of bytes pushed since the last clear, and `pendingChars` is the
     * UTF-16 length of the pending text.
     */
    ghost predicate Consistent()
      reads this, sink
    {
      pendingChars == Utf16Length(pending)
      && Bytes(sink.pushed) == Utf8Encode(flushed)
      && count + mark == |Bytes(sink.pushed)|
    }

    /** Between calls, moreover, pending text is always shorter than the flush threshold. */
    ghost predicate Valid()
      reads this, sink
    {
      Consistent() && (pending == "" || pendingChars < Limit())
    }

    constructor (sink: ByteSink, flushChars: Option<int>)
      requires sink.pushed == []
      ensures this.sink == sink && this.flushChars == flushChars
      ensures count == 0 && pending == "" && pendingChars == 0 && flushed == "" && Valid()
    {
      this.sink := sink;
      this.flushChars := flushChars;
      count := 0;
      pending := "";
      pendingChars := 0;
      flushed := "";
      mark := 0;
    }

    /** `flushChars ?? 64 * 1024`. */
    function Limit(): int {
      if flushChars.Some? then flushChars.value else DefaultFlushChars
    }

    /** Everything accepted since construction, flushed or pending, less what a clear dropped. */
    ghost function Accepted(): string
      reads this
    {
      flushed + pending
    }

    /** flush(): nothing when nothing is pending; otherwise the pending text goes to the sink as UTF-8. */
    method Flush() returns (self: Utf8XmlWriterToBytes)
      requires Consistent()
      modifies this, sink
      ensures Valid() && self == this && mark == old(mark)
      ensures pending == "" && pendingChars == 0 && Accepted() == old(Accepted())
      ensures old(pending) == "" ==> sink.pushed == old(sink.pushed) && count == old(count)
      ensures old(pending) != "" ==>
        sink.pushed == old(sink.pushed) + [(Utf8Encode(old(pending)), false)]
        && count == old(count) + |Utf8Encode(old(pending))|
    {
      if pendingChars == 0 {
        return this;
      }
      var bytes := Utf8Encode(pending);
      BytesBack(sink.pushed, (bytes, false));
      Utf8EncodeAppend(flushed, pending);
      sink.pushed := sink.pushed + [(bytes, false)];
      count := count + |bytes|;
      flushed := flushed + pending;
      pending := "";
      pendingChars := 0;
      return this;
    }

    /**
     * write(...data): an empty call or an empty joined string changes
     * nothing; otherwise the text joins the pending text, which is flushed
     * once its length reaches the limit.
     */
    method Write(data: seq<string>) returns (self: Utf8XmlWriterToBytes)
      requires Valid()
      modifies this, sink
      ensures Valid() && self == this && mark == old(mark)
      ensures Accepted() == old(Accepted()) + Concat(data)
      ensures data == [] || Concat(data) == "" ==>
        pending == old(pending) && sink.pushed == old(sink.pushed) && count == old(count)
      ensures data != [] && Concat(data) != "" ==>
        var p := old(pending) + Concat(data);
        if Utf16Length(p) >= Limit() then
          pending == "" && sink.pushed == old(sink.pushed) + [(Utf8Encode(p), false)]
          && count == old(count) + |Utf8Encode(p)|
        else
          pending == p && sink.pushed == old(sink.pushed) && count == old(count)
      ensures pending == "" || Utf16Length(pending) < Limit()
    {
      if data == [] {
        return this;
      }
      var s := Concat(data);
      if |s| == 0 {
        return this;
      }
      AppendPending(s);
      if pendingChars >= Limit() {
        var _ := Flush();
      }
      return this;
    }

    /** `_pending += s; _pendingChars += s.length`. */
    method AppendPending(s: string)
      requires Consistent()
      modifies this
      ensures Consistent() && mark == old(mark) && count == old(count) && flushed == old(flushed)
      ensures pending == old(pending) + s && pendingChars == Utf16Length(pending)
      ensures Accepted() == old(Accepted()) + s
    {
      Utf16LengthAppend(pending, s);
      pending := pending + s;
      pendingChars := pendingChars + Utf16Length(s);
    }

    /** finish(): a flush, then one empty chunk marked final. */
    method Finish()
      requires Valid()
      modifies this, sink
      ensures pending == "" && pendingChars == 0 && count == old(count) + |Utf8Encode(old(pending))|
      ensures sink.pushed == old(sink.pushed)
        + (if old(pending) == "" then [] else [(Utf8Encode(old(pending)), false)])
        + [([], true)]
      ensures Bytes(sink.pushed) == Utf8Encode(old(Accepted()))
    {
      ghost var accepted, written := Accepted(), pending;
      var _ := Flush();
      assert flushed == accepted by {
        assert Accepted() == flushed + "";
      }
      if written == "" {
        assert Utf8Encode(written) == [];
      }
      sink.PushFinal();
    }

    /** clear(): the pending text is dropped and the count reset; the sink is left alone. */
    method Clear()
      requires Valid()
      modifies this
      ensures Valid() && pending == "" && pendingChars == 0 && count == 0
      ensures flushed == old(flushed) && Accepted() == old(flushed)
    {
      pending := "";
      pendingChars := 0;
      count := 0;
      mark := |Bytes(sink.pushed)|;
    }
  }

  /** What the sink holds, plus the pending text's encoding, is the encoding of all accepted text. */
  lemma AcceptedBytes(w: Utf8XmlWriterToBytes)
    requires w.Valid()
    ensures Bytes(w.sink.pushed) + Utf8Encode(w.pending) == Utf8Encode(w.Accepted())
  {
    Utf8EncodeAppend(w.flushed, w.pending);
  }
}
