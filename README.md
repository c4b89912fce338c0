# Compression types of the S3 sink connector

This project models `CompressionType`, the closed set of compression variants
that the S3 sink connector applies to the objects it writes and reads. It
proves properties of that model. Each variant carries fixed metadata: a
numeric id, the name used in configuration, and the suffix appended to object
names. Each variant also offers three operations on the streams the storage
layer supplies:

- wrap an output stream so that what is written through it is compressed;
- wrap an input stream so that what is read through it is decompressed;
- finalize a wrapped output stream before the underlying S3 upload stream is
  committed.

`NONE` is the identity variant. `GZIP` delegates to `java.util.zip`.

Layout:

- `wrappers.dfy` (module `Wrappers`): `Result` and `Outcome`, which stand for
  a Java call that returns or throws.
- `streams.dfy` (module `Streams`): the slice of the java.io stream classes
  that the variants can observe. `OutStream` and `InStream` are classes, since
  Java streams are objects: `NONE` hands back the very same reference, and
  `finish()` changes the stream in place. A stream's class (`OutClass`,
  `InClass`) is what `instanceof` tests. Its `inner` field is the stream it
  wraps, so every stream is a finite chain of filters ending at a raw
  destination or source. The only mutable state is a deflater's `finished`
  flag.
- `compression_type.dfy` (module `Compression`): the variants, `ForName`, the
  three operations, the lemmas, and three small client methods. The client
  methods state how finalize behaves after a wrap.

Each library call that can fail becomes a boolean argument saying whether it
succeeded:

- `headerWritten`: whether the `GZIPOutputStream` constructor could write the
  gzip header into the wrapped stream;
- `headerValid`: whether the `GZIPInputStream` constructor could read a
  well-formed header;
- `trailerWritten`: whether `finish()` could write the remaining compressed
  data and the trailer.

The Java exceptions become the `Error` datatype:

- `UnknownCompressionName(name)` is the `IllegalArgumentException` that
  `forName` throws;
- `Connect(cause)` is the `ConnectException` that every other failure is
  translated into.

What GZIP's finalize checks, and what it does not:

- It accepts any `DeflaterOutputStream` (CompressionType.java:56), including a
  plain one that no GZIP wrap produced.
- It calls `finish()` without any guard of its own against finishing twice or
  writing after finish (CompressionType.java:58).
- Its type check looks only at the outermost object (CompressionType.java:56,
  63). A gzip stream behind some other filter is rejected
  (`FinalizeChecksOutermostOnly`).

## Model

| member | source | states |
|---|---|---|
| `Compression.Metadata` | kafka-connect-s3/src/main/java/io/confluent/connect/s3/storage/CompressionType.java:33-77 | NONE is (0, "none", "") and GZIP is (1, "gzip", ".gz"), as set by the constructor from the enum constants |
| `Compression.MetadataDistinct` | kafka-connect-s3/src/main/java/io/confluent/connect/s3/storage/CompressionType.java:33-35 | two variants have the same id, or the same name, or the same extension, only if they are the same variant |
| `Compression.ForName` | kafka-connect-s3/src/main/java/io/confluent/connect/s3/storage/CompressionType.java:79-87 | a success carries the variant whose name is exactly the input; a failure is the unknown-name error for that input, and it happens only when no variant has that name |
| `Compression.ForNameExact` | kafka-connect-s3/src/main/java/io/confluent/connect/s3/storage/CompressionType.java:79-86 | `forName(s)` returns `t` if and only if `s` is `t`'s name: forName inverts name, and no other string resolves |
| `Compression.ForNameRejectsOtherSpellings` | kafka-connect-s3/src/main/java/io/confluent/connect/s3/storage/CompressionType.java:79-86 | examples of the case-sensitive, exact match: "GZIP", "Gzip", "NONE", " gzip", "gz", ".gz" and "" all fail with the unknown-name error, and none defaults to a variant |
| `Compression.WrapForOutput` | kafka-connect-s3/src/main/java/io/confluent/connect/s3/storage/CompressionType.java:37-43 | GZIP returns a new GZIPOutputStream over `out` with an 8192-byte buffer, not yet finished, or a ConnectException when construction fails; NONE (the default at lines 92-94) returns `out` itself; either way the result writes into the same raw destination as `out` |
| `Compression.WrapForInput` | kafka-connect-s3/src/main/java/io/confluent/connect/s3/storage/CompressionType.java:45-52 | GZIP returns a new GZIPInputStream over `in`, or a ConnectException when the header cannot be read; NONE (the default at lines 99-101) returns `in` itself; either way the result reads from the same raw source as `in` |
| `Compression.Finalize` | kafka-connect-s3/src/main/java/io/confluent/connect/s3/storage/CompressionType.java:55-66 | GZIP finishes a deflater-family stream and returns success, or the finish failure as a ConnectException; any other stream gets the not-a-DeflaterOutputStream ConnectException and is left unchanged; NONE (the default at line 107) returns success and changes nothing, even for a deflater |
| `Compression.GzipWriteSession` | kafka-connect-s3/src/main/java/io/confluent/connect/s3/storage/CompressionType.java:37-66 | finalizing what GZIP's wrapForOutput produced never fails the type check; the session fails exactly when the header write or the finish fails, with that cause |
| `Compression.FinalizeChecksOutermostOnly` | kafka-connect-s3/src/main/java/io/confluent/connect/s3/storage/CompressionType.java:56-65 | the instanceof check looks at the outermost object only: a gzip stream behind another filter is rejected, and it is not finished |
| `Compression.NoneFinalizeLeavesGzipOpen` | kafka-connect-s3/src/main/java/io/confluent/connect/s3/storage/CompressionType.java:107 | NONE's finalize succeeds on a GZIPOutputStream and leaves it unfinished |
| `Streams.OutStream.Finish` | kafka-connect-s3/src/main/java/io/confluent/connect/s3/storage/CompressionType.java:58-61 | finish() on a deflater-family stream succeeds exactly when the wrapped stream accepts the final bytes, and the stream is finished afterwards; a throwing finish() is reported as failure |
| `Streams.OutStream.Deflater` | kafka-connect-s3/src/main/java/io/confluent/connect/s3/storage/CompressionType.java:39 | a new deflater-family filter has the requested class, wrapped stream and buffer size, and is not finished |
| `Streams.Destination` | kafka-connect-s3/src/main/java/io/confluent/connect/s3/storage/CompressionType.java:103-105 | every output stream's chain of filters ends at a raw destination, the underlying stream that is committed |
| `Streams.Origin` | kafka-connect-s3/src/main/java/io/confluent/connect/s3/storage/CompressionType.java:46-48 | every input stream's chain of filters ends at a raw source |

## Left out

- The compression itself is not modelled. GZIPOutputStream and GZIPInputStream implement the gzip file format of RFC 1952 over DEFLATE (RFC 1951) inside `java.util.zip`, a library outside this model. So there is no byte-level round trip and no claim about what a truncated stream looks like.
- The bytes of the gzip header and trailer are not modelled; only whether writing or reading them succeeded, as a boolean argument.
- Streams.OutStream.Finish: a finish() that throws leaves `finished` as it was. What the library leaves behind after a partial write is library behaviour. So are repeated calls to finish(), and the model does not invent a guard against them.
- Writes through a wrapped stream, closing, and the commit of the S3 object belong to the storage writer, which is not part of this model.
- The buffer size of GZIPInputStream is the library's default; the source does not choose one, so it is not modelled.
- Null arguments are not modelled: stream types are non-null, and `ForName` takes a string.
- The Java exception classes are reduced to one `Error` datatype. The cause wrapped inside a ConnectException is reduced to which step failed.
- Java's `Object.finalize()` is unrelated; the operation modelled is the overload that takes an OutputStream.
- Concurrency: the variants are immutable, and each stream has a single owner.
