/** v3 produce records and the envelopes they become (internal/api/v3.go, v3EnvelopeFromRecord and
    decodeV3Headers). Serialising a key or value and decoding base64 are libraries here: a datum
    carries what they return for it. */
module V3Records {
  import opened Base
  import opened Records
  import opened RequestLimits

  /** What the encoder reports about a key or value, for the delivery report. */
  datatype Metadata = Metadata(kind: string, size: int, subject: string, schemaId: Option<int>, schemaVersion: Option<int>)

  const NO_METADATA: Metadata := Metadata("", 0, "", None, None)

  datatype Encoded = Encoded(bytes: Option<string>, meta: Metadata)

  /** A header value: absent, or base64 text that decodes to bytes or not at all. */
  datatype V3Header = V3Header(name: string, value: Option<Option<string>>)

  datatype V3Record = V3Record(
    partition: Option<int>,
    headers: seq<V3Header>,
    key: Option<Result<Encoded, string>>,
    value: Option<Result<Encoded, string>>)

  datatype Envelope = Envelope(id: string, record: Record, key: Metadata, value: Metadata)

  // ---------------------------------------------------------------------------------------
  // Headers

  /** The bytes a header value stands for; meaningful when the base64 is valid. */
  function HeaderBytes(h: V3Header): Option<string> {
    if h.value.None? then None else h.value.value
  }

  predicate HeaderAcceptable(h: V3Header, l: DecodeLimits) {
    && h.name != ""
    && (h.value.Some? ==> h.value.value.Some?)
    && |h.name| + Length(HeaderBytes(h)) <= l.maxHeaderBytes
  }

  predicate HeadersAcceptable(headers: seq<V3Header>, l: DecodeLimits) {
    && (headers != [] ==> |headers| <= l.maxHeaders)
    && forall i :: 0 <= i < |headers| ==> HeaderAcceptable(headers[i], l)
  }

  function DecodedHeaders(headers: seq<V3Header>): seq<Header> {
    seq(|headers|, i requires 0 <= i < |headers| => Header(headers[i].name, HeaderBytes(headers[i])))
  }

  /** decodeV3Headers: all headers, in order, or none. */
  method DecodeV3Headers(headers: seq<V3Header>, l: DecodeLimits) returns (r: Result<seq<Header>, string>)
    ensures r.Ok? <==> HeadersAcceptable(headers, l)
    ensures r.Ok? ==> r.value == DecodedHeaders(headers)
  {
    if |headers| == 0 {
      return Ok([]);
    }
    if |headers| > l.maxHeaders {
      return Err("too many headers");
    }
    var out := [];
    for i := 0 to |headers|
      invariant |out| == i
      invariant forall j :: 0 <= j < i ==> HeaderAcceptable(headers[j], l)
      invariant forall j :: 0 <= j < i ==> out[j] == Header(headers[j].name, HeaderBytes(headers[j]))
    {
      var h := headers[i];
      if h.name == "" {
        return Err("header name is required");
      }
      var value := None;
      if h.value.Some? {
        if h.value.value.None? {
          return Err("header value is not valid base64");
        }
        value := h.value.value;
      }
      if |h.name| + Length(value) > l.maxHeaderBytes {
        return Err("header exceeds configured size limit");
      }
      out := out + [Header(h.name, value)];
    }
    return Ok(out);
  }

  // ---------------------------------------------------------------------------------------
  // Envelopes

  /** encodeV3Data: an absent datum is null with no metadata. */
  function EncodeData(d: Option<Result<Encoded, string>>): Result<Encoded, string> {
    if d.None? then Ok(Encoded(None, NO_METADATA)) else d.value
  }

  function RecordOf(topic: string, rec: V3Record): Record
    requires EncodeData(rec.key).Ok? && EncodeData(rec.value).Ok?
  {
    Record(topic, EncodeData(rec.key).value.bytes, EncodeData(rec.value).value.bytes, DecodedHeaders(rec.headers), rec.partition)
  }

  /** Everything the proxy demands of a record. */
  predicate Acceptable(topic: string, rec: V3Record, l: DecodeLimits) {
    && EncodeData(rec.key).Ok?
    && EncodeData(rec.value).Ok?
    && HeadersAcceptable(rec.headers, l)
    && WithinLimits(RecordOf(topic, rec), l)
  }

  /** v3EnvelopeFromRecord, check by check in the source's order. */
  function EnvelopeOf(topic: string, id: string, rec: V3Record, l: DecodeLimits): Result<Envelope, string> {
    var key := EncodeData(rec.key);
    var value := EncodeData(rec.value);
    if key.Err? then Err("key: " + key.error)
    else if value.Err? then Err("value: " + value.error)
    else if Length(key.value.bytes) > l.maxKeyBytes then Err("key exceeds configured size limit")
    else if rec.partition.Some? && rec.partition.value < 0 then Err("partition_id must be non-negative")
    else if !HeadersAcceptable(rec.headers, l) then Err("headers are not acceptable")
    else if SizeBytes(RecordOf(topic, rec)) > l.maxRecordBytes then Err("record exceeds configured record size limit")
    else Ok(Envelope(id, RecordOf(topic, rec), key.value.meta, value.value.meta))
  }

  /** The envelope of an acceptable record: its own id, record and metadata. */
  function EnvelopeFor(topic: string, id: string, rec: V3Record): Envelope
    requires EncodeData(rec.key).Ok? && EncodeData(rec.value).Ok?
  {
    Envelope(id, RecordOf(topic, rec), EncodeData(rec.key).value.meta, EncodeData(rec.value).value.meta)
  }

  /** A record gets an envelope exactly when it is acceptable, under its own id, with its own
      partition, bytes, headers and metadata, and within every limit. */
  lemma {:induction false} EnvelopeIffAcceptable(topic: string, id: string, rec: V3Record, l: DecodeLimits)
    ensures EnvelopeOf(topic, id, rec, l).Ok? <==> Acceptable(topic, rec, l)
    ensures Acceptable(topic, rec, l) ==>
      && EnvelopeOf(topic, id, rec, l) == Ok(EnvelopeFor(topic, id, rec))
      && WithinLimits(RecordOf(topic, rec), l)
  {
    if EncodeData(rec.key).Ok? && EncodeData(rec.value).Ok? && HeadersAcceptable(rec.headers, l) {
      var r := RecordOf(topic, rec);
      forall i | 0 <= i < |r.headers|
        ensures HeaderWithin(r.headers[i], l)
      {
        assert HeaderAcceptable(rec.headers[i], l);
      }
    }
  }

  // ---------------------------------------------------------------------------------------
  // Whose bytes an envelope carries

  /** The bytes of a datum: none when it is absent. */
  predicate IsBytes(d: Option<Result<Encoded, string>>, bytes: Option<string>) {
    if d.None? then bytes.None? else d.value.Ok? && bytes == d.value.value.bytes
  }

  predicate IsMetadata(d: Option<Result<Encoded, string>>, meta: Metadata) {
    if d.None? then meta == Metadata("", 0, "", None, None) else d.value.Ok? && meta == d.value.value.meta
  }

  /** The header has its own name and value; an absent value is nil. */
  predicate IsHeader(h: Header, raw: V3Header) {
    h.key == raw.name && h.value == (if raw.value.None? then None else raw.value.value)
  }

  /** Field by field: the record is this one, for this topic. */
  predicate IsRecord(r: Record, topic: string, rec: V3Record) {
    && r.topic == topic
    && r.partition == rec.partition
    && IsBytes(rec.key, r.key)
    && IsBytes(rec.value, r.value)
    && |r.headers| == |rec.headers|
    && (forall j :: 0 <= j < |r.headers| ==> IsHeader(r.headers[j], rec.headers[j]))
  }

  /** Every envelope has its own id, and the record, key metadata and value metadata of its own input. */
  lemma {:induction false} EnvelopeIsItsRecord(topic: string, id: string, rec: V3Record, l: DecodeLimits)
    requires EnvelopeOf(topic, id, rec, l).Ok?
    ensures
      var e := EnvelopeOf(topic, id, rec, l).value;
      && e.id == id
      && IsRecord(e.record, topic, rec)
      && IsMetadata(rec.key, e.key)
      && IsMetadata(rec.value, e.value)
  {
    EnvelopeIffAcceptable(topic, id, rec, l);
  }

  /** Every header value that is there is valid base64. */
  predicate HeadersDecode(headers: seq<V3Header>) {
    forall i :: 0 <= i < |headers| ==> headers[i].value.None? || headers[i].value.value.Some?
  }

  /** A record that is this one, field by field, is the one the decoder makes. */
  lemma {:induction false} RecordIsUnique(r: Record, topic: string, rec: V3Record)
    requires IsRecord(r, topic, rec)
    ensures EncodeData(rec.key).Ok? && EncodeData(rec.value).Ok? && r == RecordOf(topic, rec)
  {
    assert r.headers == DecodedHeaders(rec.headers);
  }

  /** And a record gets an envelope if and only if its headers decode and there is a record that is this
      one, field by field, and fits the limits. */
  lemma {:induction false} AcceptedIffFits(topic: string, id: string, rec: V3Record, l: DecodeLimits)
    ensures EnvelopeOf(topic, id, rec, l).Ok? <==>
            HeadersDecode(rec.headers) && exists r: Record :: IsRecord(r, topic, rec) && WithinLimits(r, l)
  {
    EnvelopeIffAcceptable(topic, id, rec, l);
    if EnvelopeOf(topic, id, rec, l).Ok? {
      EnvelopeIsItsRecord(topic, id, rec, l);
      assert forall i :: 0 <= i < |rec.headers| ==> HeaderAcceptable(rec.headers[i], l);
    }
    if HeadersDecode(rec.headers) && exists r: Record :: IsRecord(r, topic, rec) && WithinLimits(r, l) {
      var r: Record :| IsRecord(r, topic, rec) && WithinLimits(r, l);
      RecordIsUnique(r, topic, rec);
      forall i | 0 <= i < |rec.headers|
        ensures HeaderAcceptable(rec.headers[i], l)
      {
        assert HeaderWithin(r.headers[i], l);
      }
    }
  }

  /** What a refusal says: the first check that fails, in the source's order. */
  lemma {:induction false} RefusalNamesFirstFailure(topic: string, id: string, rec: V3Record, l: DecodeLimits)
    requires EnvelopeOf(topic, id, rec, l).Err?
    ensures
      var error := EnvelopeOf(topic, id, rec, l).error;
      if rec.key.Some? && rec.key.value.Err? then error == "key: " + rec.key.value.error
      else if rec.value.Some? && rec.value.value.Err? then error == "value: " + rec.value.value.error
      else if (if rec.key.None? then 0 else Length(rec.key.value.value.bytes)) > l.maxKeyBytes then error == "key exceeds configured size limit"
      else if rec.partition.Some? && rec.partition.value < 0 then error == "partition_id must be non-negative"
      else error == if HeadersAcceptable(rec.headers, l) then "record exceeds configured record size limit"
                    else "headers are not acceptable"
  {
  }
}
