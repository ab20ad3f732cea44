/** The configured request limits (internal/api/types.go, decodeLimits). */
module RequestLimits {
  import opened Records

  datatype DecodeLimits = DecodeLimits(
    maxRecords: int,
    maxRecordBytes: int,
    maxKeyBytes: int,
    maxHeaders: int,
    maxHeaderBytes: int)

  /** Zero and negative settings mean the default, so every limit in force is positive. */
  function WithDefaults(l: DecodeLimits): (r: DecodeLimits)
    ensures r.maxRecords > 0 && r.maxRecordBytes > 0 && r.maxKeyBytes > 0 && r.maxHeaders > 0 && r.maxHeaderBytes > 0
    ensures r.maxRecords == if l.maxRecords > 0 then l.maxRecords else 1000
    ensures r.maxRecordBytes == if l.maxRecordBytes > 0 then l.maxRecordBytes else 1048576
    ensures r.maxKeyBytes == if l.maxKeyBytes > 0 then l.maxKeyBytes else 1048576
    ensures r.maxHeaders == if l.maxHeaders > 0 then l.maxHeaders else 64
    ensures r.maxHeaderBytes == if l.maxHeaderBytes > 0 then l.maxHeaderBytes else 65536
  {
    DecodeLimits(
      if l.maxRecords <= 0 then 1000 else l.maxRecords,
      if l.maxRecordBytes <= 0 then 1024 * 1024 else l.maxRecordBytes,
      if l.maxKeyBytes <= 0 then 1024 * 1024 else l.maxKeyBytes,
      if l.maxHeaders <= 0 then 64 else l.maxHeaders,
      if l.maxHeaderBytes <= 0 then 64 * 1024 else l.maxHeaderBytes)
  }

  predicate HeaderWithin(h: Header, l: DecodeLimits) {
    h.key != "" && |h.key| + Length(h.value) <= l.maxHeaderBytes
  }

  /** What every record that reaches the producer satisfies. */
  predicate WithinLimits(r: Record, l: DecodeLimits) {
    && Length(r.key) <= l.maxKeyBytes
    && (r.headers != [] ==> |r.headers| <= l.maxHeaders)
    && (forall i :: 0 <= i < |r.headers| ==> HeaderWithin(r.headers[i], l))
    && SizeBytes(r) <= l.maxRecordBytes
    && (r.partition.Some? ==> r.partition.value >= 0)
  }
}
