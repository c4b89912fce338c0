/** The supported compression types of the S3 sink connector: a closed set of
    variants, each with fixed metadata and three operations on the streams the
    storage layer hands it (wrap for output, wrap for input, finalize). The
    compression itself is done by java.util.zip and is not modelled; each
    fallible library call is represented by a boolean argument saying whether
    it succeeded. */
module Compression {
  import opened Wrappers
  import opened Streams

  /** The exceptions the operations throw. `forName` throws an
      IllegalArgumentException; every other failure is a ConnectException,
      distinguished here by what caused it. */
  datatype Error =
    | UnknownCompressionName(name: string)  // "Unknown compression name: " + name
    | Connect(cause: Cause)

  datatype Cause =
    | GzipOutputInit            // the GZIPOutputStream constructor threw
    | GzipInputInit             // the GZIPInputStream constructor threw
    | FinishFailed              // DeflaterOutputStream.finish() threw
    | NotADeflaterOutputStream  // finalize was given a stream outside the deflater family

  /** The output buffer size GZIP asks its compressor for: 8 KiB. */
  const GzipBufferSize: nat := 8 * 1024

  /** A compression type and its metadata: a stable numeric id, the name used
      in configuration, and the suffix appended to object names. */
  datatype CompressionType = NONE | GZIP
  {
    function Id(): (r: int) {
      match this
      case NONE => 0
      case GZIP => 1
    }

    function Name(): (r: string) {
      match this
      case NONE => "none"
      case GZIP => "gzip"
    }

    function Extension(): (r: string) {
      match this
      case NONE => ""
      case GZIP => ".gz"
    }
  }

  /** The variant whose name is exactly `name`; unknown names are an error,
      never a default. */
  function ForName(name: string): (r: Result<CompressionType, Error>)
    ensures r.Success? ==> r.value.Name() == name
    ensures r.Failure? ==> r.error == UnknownCompressionName(name)
    ensures r.Failure? ==> forall t: CompressionType :: t.Name() != name
  {
    if name == NONE.Name() then Success(NONE)
    else if name == GZIP.Name() then Success(GZIP)
    else Failure(UnknownCompressionName(name))
  }

  /** Wraps `out` with a filter that compresses what is written through it.
      NONE hands back `out` itself. GZIP builds a GZIPOutputStream over `out`
      with an 8 KiB buffer; that constructor writes the gzip header into `out`,
      and `headerWritten` says whether it succeeded. */
  method WrapForOutput(t: CompressionType, out: OutStream, headerWritten: bool)
    returns (r: Result<OutStream, Error>)
    requires out.Valid()
    ensures t == NONE ==> r == Success(out)
    ensures t == GZIP && !headerWritten ==> r == Failure(Connect(GzipOutputInit))
    ensures t == GZIP && headerWritten ==>
      && r.Success? && fresh(r.value)
      && r.value.cls == GZIPOutputStream && r.value.inner == out
      && r.value.bufferSize == GzipBufferSize && !r.value.finished
    ensures r.Success? ==> r.value.Valid() && Destination(r.value) == Destination(out)
  {
    if t == NONE {
      r := Success(out);
    } else if headerWritten {
      var gz := new OutStream.Deflater(GZIPOutputStream, out, GzipBufferSize);
      r := Success(gz);
    } else {
      r := Failure(Connect(GzipOutputInit));
    }
  }

  /** Wraps `source` with a filter that decompresses what is read through it.
      NONE hands back `source` itself. GZIP builds a GZIPInputStream over
      `source`; that constructor reads and checks the gzip header, and
      `headerValid` says whether a well-formed header could be read. */
  method WrapForInput(t: CompressionType, source: InStream, headerValid: bool)
    returns (r: Result<InStream, Error>)
    requires source.Valid()
    ensures t == NONE ==> r == Success(source)
    ensures t == GZIP && !headerValid ==> r == Failure(Connect(GzipInputInit))
    ensures t == GZIP && headerValid ==>
      r.Success? && fresh(r.value) && r.value.cls == GZIPInputStream && r.value.inner == source
    ensures r.Success? ==> r.value.Valid() && Origin(r.value) == Origin(source)
  {
    if t == NONE {
      r := Success(source);
    } else if headerValid {
      var gz := new InStream.Filter(GZIPInputStream, source);
      r := Success(gz);
    } else {
      r := Failure(Connect(GzipInputInit));
    }
  }

  /** Takes whatever action the variant needs before the underlying stream is
      committed. NONE does nothing, whatever it is given. GZIP checks that the
      outermost object is a DeflaterOutputStream (of any subclass) and calls
      its finish(); `trailerWritten` says whether the wrapped stream accepted
      the final bytes. */
  method Finalize(t: CompressionType, compressionFilter: OutStream, trailerWritten: bool)
    returns (r: Outcome<Error>)
    modifies compressionFilter
    ensures t == NONE ==> r == Pass && unchanged(compressionFilter)
    ensures t == GZIP && !compressionFilter.cls.IsDeflaterFamily() ==>
      r == Fail(Connect(NotADeflaterOutputStream)) && unchanged(compressionFilter)
    ensures t == GZIP && compressionFilter.cls.IsDeflaterFamily() ==>
      && r == (if trailerWritten then Pass else Fail(Connect(FinishFailed)))
      && compressionFilter.finished == (old(compressionFilter.finished) || trailerWritten)
  {
    match t
    case NONE =>
      r := Pass;
    case GZIP =>
      if compressionFilter.cls.IsDeflaterFamily() {
        var ok := compressionFilter.Finish(trailerWritten);
        r := if ok then Pass else Fail(Connect(FinishFailed));
      } else {
        r := Fail(Connect(NotADeflaterOutputStream));
      }
  }

  /** The fixed metadata of each variant. */
  lemma Metadata()
    ensures NONE.Id() == 0 && NONE.Name() == "none" && NONE.Extension() == ""
    ensures GZIP.Id() == 1 && GZIP.Name() == "gzip" && GZIP.Extension() == ".gz"
  {
  }

  /** Ids, names and extensions each tell the variants apart. */
  lemma MetadataDistinct(a: CompressionType, b: CompressionType)
    ensures a.Id() == b.Id() <==> a == b
    ensures a.Name() == b.Name() <==> a == b
    ensures a.Extension() == b.Extension() <==> a == b
  {
  }

  /** `forName` resolves a name to a variant exactly when it is that variant's
      name: it inverts `name`, and nothing else resolves. */
  lemma ForNameExact(name: string, t: CompressionType)
    ensures ForName(name) == Success(t) <==> name == t.Name()
  {
  }

  /** Examples of the exact, case-sensitive match: other spellings, prefixes,
      the extension and the empty string are all rejected. These cases follow
      from `ForName`'s contract and `ForNameExact`; they are listed as
      illustration. */
  lemma ForNameRejectsOtherSpellings()
    ensures ForName("GZIP") == Failure(UnknownCompressionName("GZIP"))
    ensures ForName("Gzip") == Failure(UnknownCompressionName("Gzip"))
    ensures ForName("NONE") == Failure(UnknownCompressionName("NONE"))
    ensures ForName(" gzip") == Failure(UnknownCompressionName(" gzip"))
    ensures ForName("gz") == Failure(UnknownCompressionName("gz"))
    ensures ForName(".gz") == Failure(UnknownCompressionName(".gz"))
    ensures ForName("") == Failure(UnknownCompressionName(""))
  {
  }

  /** A gzip write session as the storage writer runs it: wrap, then finalize
      what the wrap produced. The type check in finalize always passes, since
      a GZIPOutputStream is a DeflaterOutputStream; only the two library calls
      can make the session fail. */
  method GzipWriteSession(out: OutStream, headerWritten: bool, trailerWritten: bool)
    returns (r: Outcome<Error>)
    requires out.Valid()
    ensures r != Fail(Connect(NotADeflaterOutputStream))
    ensures r == if !headerWritten then Fail(Connect(GzipOutputInit))
                 else if trailerWritten then Pass
                 else Fail(Connect(FinishFailed))
  {
    var w := WrapForOutput(GZIP, out, headerWritten);
    if w.Failure? {
      return Fail(w.error);
    }
    r := Finalize(GZIP, w.value, trailerWritten);
  }

  /** The type check in GZIP's finalize looks at the outermost object only: a
      gzip stream hidden behind any other filter is rejected, and nothing is
      finished. */
  method FinalizeChecksOutermostOnly(out: OutStream, trailerWritten: bool)
    returns (r: Outcome<Error>, gzipFinished: bool)
    requires out.Valid()
    ensures r == Fail(Connect(NotADeflaterOutputStream))
    ensures !gzipFinished
  {
    var w := WrapForOutput(GZIP, out, true);
    var gz := w.value;
    var buffered := new OutStream.Filter(gz);
    r := Finalize(GZIP, buffered, trailerWritten);
    gzipFinished := gz.finished;
  }

  /** NONE's finalize leaves even a deflater-family stream untouched. */
  method NoneFinalizeLeavesGzipOpen(out: OutStream, trailerWritten: bool)
    returns (r: Outcome<Error>, gzipFinished: bool)
    requires out.Valid()
    ensures r == Pass
    ensures !gzipFinished
  {
    var w := WrapForOutput(GZIP, out, true);
    var gz := w.value;
    r := Finalize(NONE, gz, trailerWritten);
    gzipFinished := gz.finished;
  }
}
