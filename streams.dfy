/** The part of the java.io stream hierarchy that a compression type sees:
    a stream is either a raw destination or source supplied by the storage
    layer, or a filter over another stream. Only the runtime class of the
    outermost object and the chain of wrapped streams are modelled; the bytes
    that flow through them are not. */
module Streams {

  /** The runtime class of an output stream, as far as `instanceof` can tell. */
  datatype OutClass =
    | RawOutput             // the destination itself, e.g. the S3 upload stream
    | OtherOutputFilter     // a filter outside the deflater family, e.g. a buffering stream
    | DeflaterOutputStream  // java.util.zip.DeflaterOutputStream
    | GZIPOutputStream      // java.util.zip.GZIPOutputStream, a subclass of the above
  {
    /** `o instanceof DeflaterOutputStream` for an object of this class. */
    predicate IsDeflaterFamily() {
      this == DeflaterOutputStream || this == GZIPOutputStream
    }
  }

  /** The runtime class of an input stream. */
  datatype InClass =
    | RawInput              // the source itself, e.g. an S3 object stream
    | OtherInputFilter      // any filter other than the gzip decompressor
    | GZIPInputStream       // java.util.zip.GZIPInputStream

  /** An output stream object. Its class, the stream it writes into and its
      buffer size are fixed at construction; only `finished` changes. */
  class OutStream {
    const cls: OutClass
    const inner: OutStream?   // the stream this filter writes into; null for a raw destination
    const depth: nat          // how many filters lie between this object and its destination
    const bufferSize: nat     // the size of a deflater's output buffer; 0 for other classes
    var finished: bool        // a deflater's finish() has completed

    /** The chain of wrapped streams is finite and ends at a raw destination. */
    ghost predicate Valid()
      decreases depth
    {
      && (inner == null <==> cls == RawOutput)
      && (inner == null ==> depth == 0)
      && (inner != null ==> depth == inner.depth + 1 && inner.Valid())
      && (!cls.IsDeflaterFamily() ==> bufferSize == 0)
    }

    /** A raw destination stream supplied by the storage layer. */
    constructor Raw()
      ensures Valid() && cls == RawOutput && inner == null && !finished
    {
      cls := RawOutput;
      inner := null;
      depth := 0;
      bufferSize := 0;
      finished := false;
    }

    /** A filter of a class outside the deflater family over `out`. */
    constructor Filter(out: OutStream)
      requires out.Valid()
      ensures Valid() && cls == OtherOutputFilter && inner == out && !finished
    {
      cls := OtherOutputFilter;
      inner := out;
      depth := out.depth + 1;
      bufferSize := 0;
      finished := false;
    }

    /** A deflater-family filter of class `c` over `out` with an output buffer of `size` bytes. */
    constructor Deflater(c: OutClass, out: OutStream, size: nat)
      requires c.IsDeflaterFamily() && out.Valid()
      requires size > 0  // the library rejects a buffer size that is not positive
      ensures Valid() && cls == c && inner == out && bufferSize == size && !finished
    {
      cls := c;
      inner := out;
      depth := out.depth + 1;
      bufferSize := size;
      finished := false;
    }

    /** DeflaterOutputStream.finish(): completes the compressed data and, for
        the gzip format, writes the trailer into the wrapped stream, without
        closing it. `written` is whether the wrapped stream accepted those
        bytes; when it did not, finish() throws and `ok` is false. */
    method Finish(written: bool) returns (ok: bool)
      requires cls.IsDeflaterFamily()
      modifies this
      ensures ok == written
      ensures finished == (old(finished) || written)
    {
      ok := written;
      if written {
        finished := true;
      }
    }
  }

  /** An input stream object; nothing about it changes in this model. */
  class InStream {
    const cls: InClass
    const inner: InStream?    // the stream this filter reads from; null for a raw source
    const depth: nat          // how many filters lie between this object and its source

    /** The chain of wrapped streams is finite and ends at a raw source. */
    ghost predicate Valid()
      decreases depth
    {
      && (inner == null <==> cls == RawInput)
      && (inner == null ==> depth == 0)
      && (inner != null ==> depth == inner.depth + 1 && inner.Valid())
    }

    /** A raw source stream supplied by the storage layer. */
    constructor Raw()
      ensures Valid() && cls == RawInput && inner == null
    {
      cls := RawInput;
      inner := null;
      depth := 0;
    }

    /** A filter of class `c` over `source`. */
    constructor Filter(c: InClass, source: InStream)
      requires c != RawInput && source.Valid()
      ensures Valid() && cls == c && inner == source
    {
      cls := c;
      inner := source;
      depth := source.depth + 1;
    }
  }

  /** The raw destination at the end of the chain of `s`: the stream that is
      eventually committed. */
  function Destination(s: OutStream): (r: OutStream)
    requires s.Valid()
    ensures r.Valid() && r.cls == RawOutput && r.inner == null
    decreases s.depth
  {
    if s.inner == null then s else Destination(s.inner)
  }

  /** The raw source at the end of the chain of `s`. */
  function Origin(s: InStream): (r: InStream)
    requires s.Valid()
    ensures r.Valid() && r.cls == RawInput && r.inner == null
    decreases s.depth
  {
    if s.inner == null then s else Origin(s.inner)
  }
}
