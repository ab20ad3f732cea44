/** The v2 request decoder (internal/api/types.go, decodeProduceRequestWithSchema and decodeHeaders).
    JSON unmarshalling has been done; base64 and the schema encoder are parameters. */
module V2Decoder {
  import opened Base
  import opened Records
  import opened RequestLimits
  import opened Limits
  import opened ProduceProtocol
  import ProduceTheorems
  import Json
  import Compaction

  /** A JSON field that may be missing; `raw` is its text. */
  datatype NullableRaw = NullableRaw(present: bool, raw: string)

  datatype RawHeader = RawHeader(key: string, value: NullableRaw)

  datatype RawRecord = RawRecord(key: NullableRaw, value: NullableRaw, partition: Option<int>, headers: seq<RawHeader>)

  datatype Format = BinaryFormat | JsonFormat | SchemaFormat

  /** Payload bytes and the id of the schema that wrote them. */
  datatype Payload = Payload(bytes: Option<string>, schemaId: Option<int>)

  /** The libraries: base64 of a JSON string, and the schema encoder when one is configured. */
  datatype Codec = Codec(
    base64: string -> Result<string, string>,
    encode: Option<(bool, NullableRaw) -> Result<Payload, string>>)

  /** What one request is decoded under. */
  datatype Setting = Setting(topic: string, path: Option<int>, format: Format, codec: Codec, limits: DecodeLimits)

  datatype Complaint = BadKey | BadValue | BadHeaders | KeyTooLong | NegativePartition | RecordTooLarge

  datatype Failure =
    | Unprocessable(message: string)
    | TooMany(got: int, limit: int)
    | BadRecord(index: nat, complaint: Complaint)

  datatype Accepted = Accepted(records: seq<Record>, keySchemaId: Option<int>, valueSchemaId: Option<int>)

  // ---------------------------------------------------------------------------------------
  // Payloads and headers

  /** decodeNullableValue */
  function DecodeNullable(v: NullableRaw, s: Setting): Result<Option<string>, string> {
    if !v.present || Compaction.IsJSONNull(v.raw) then Ok(None)
    else
      var bytes := if s.format.BinaryFormat? then s.codec.base64(v.raw) else Compaction.DecodedValue(v.raw);
      if bytes.Ok? then Ok(Some(bytes.value)) else Err(bytes.error)
  }

  /** decodeNullableValue as the code runs it: JSON values go through the fast path. */
  method DecodeNullableValue(v: NullableRaw, s: Setting) returns (r: Result<Option<string>, string>)
    ensures r == DecodeNullable(v, s)
    ensures !v.present ==> r == Ok(None)
    ensures v.present && !s.format.BinaryFormat? && Json.Parse(v.raw).Some? ==>
      var t := Json.Parse(v.raw).value.tree;
      r == Ok(if t == Json.Atom("null") then None else Some(Json.Print(Json.Squeeze(t))))
  {
    if Json.Parse(v.raw).Some? {
      Compaction.NullIsRecognised(v.raw);
    }
    if !v.present || Compaction.IsJSONNull(v.raw) {
      return Ok(None);
    }
    var bytes;
    if s.format.BinaryFormat? {
      bytes := s.codec.base64(v.raw);
    } else {
      bytes := Compaction.DecodeJSONValue(v.raw);
    }
    if bytes.Err? {
      return Err(bytes.error);
    }
    return Ok(Some(bytes.value));
  }

  /** decodeV2NullableValue */
  function DecodePayload(isKey: bool, v: NullableRaw, s: Setting): Result<Payload, string> {
    if s.format.SchemaFormat? then
      if s.codec.encode.None? then Err("schema registry is required") else s.codec.encode.value(isKey, v)
    else
      var bytes := DecodeNullable(v, s);
      if bytes.Ok? then Ok(Payload(bytes.value, None)) else Err(bytes.error)
  }

  method DecodeV2NullableValue(isKey: bool, v: NullableRaw, s: Setting) returns (r: Result<Payload, string>)
    ensures r == DecodePayload(isKey, v, s)
  {
    if !s.format.SchemaFormat? {
      var bytes := DecodeNullableValue(v, s);
      if bytes.Err? {
        return Err(bytes.error);
      }
      return Ok(Payload(bytes.value, None));
    }
    if s.codec.encode.None? {
      return Err("schema registry is required");
    }
    return s.codec.encode.value(isKey, v);
  }

  predicate HeaderAcceptable(h: RawHeader, s: Setting) {
    && h.key != ""
    && h.value.present
    && DecodeNullable(h.value, s).Ok?
    && |h.key| + Length(DecodeNullable(h.value, s).value) <= s.limits.maxHeaderBytes
  }

  predicate HeadersAcceptable(headers: seq<RawHeader>, s: Setting) {
    && (headers != [] ==> |headers| <= s.limits.maxHeaders)
    && forall i :: 0 <= i < |headers| ==> HeaderAcceptable(headers[i], s)
  }

  function DecodedHeader(h: RawHeader, s: Setting): Header
    requires HeaderAcceptable(h, s)
  {
    Header(h.key, DecodeNullable(h.value, s).value)
  }

  function DecodedHeaders(headers: seq<RawHeader>, s: Setting): (r: seq<Header>)
    requires HeadersAcceptable(headers, s)
    ensures |r| == |headers|
  {
    seq(|headers|, i requires 0 <= i < |headers| => DecodedHeader(headers[i], s))
  }

  /** One header; None is the source's error. */
  method DecodeHeader(h: RawHeader, s: Setting) returns (r: Option<Header>)
    ensures r.Some? <==> HeaderAcceptable(h, s)
    ensures r.Some? ==> r.value == DecodedHeader(h, s)
  {
    if h.key == "" {
      return None;
    }
    if !h.value.present {
      return None;
    }
    var v := DecodeNullableValue(h.value, s);
    if v.Err? {
      return None;
    }
    if |h.key| + Length(v.value) > s.limits.maxHeaderBytes {
      return None;
    }
    return Some(Header(h.key, v.value));
  }

  /** decodeHeaders: all headers in order, or none. */
  method DecodeHeaders(headers: seq<RawHeader>, s: Setting) returns (r: Option<seq<Header>>)
    ensures r.Some? <==> HeadersAcceptable(headers, s)
    ensures r.Some? ==> r.value == DecodedHeaders(headers, s)
  {
    if |headers| == 0 {
      return Some([]);
    }
    if |headers| > s.limits.maxHeaders {
      return None;
    }
    var out := [];
    for i := 0 to |headers|
      invariant |out| == i
      invariant forall j :: 0 <= j < i ==> HeaderAcceptable(headers[j], s)
      invariant forall j :: 0 <= j < i ==> out[j] == DecodedHeader(headers[j], s)
    {
      var h := DecodeHeader(headers[i], s);
      if h.None? {
        return None;
      }
      out := out + [h.value];
    }
    return Some(out);
  }

  // ---------------------------------------------------------------------------------------
  // Records

  /** The path partition, when there is one, replaces every record's own. */
  function EffectivePartition(rr: RawRecord, s: Setting): Option<int> {
    if s.path.Some? then s.path else rr.partition
  }

  predicate PartsDecode(rr: RawRecord, s: Setting) {
    DecodePayload(true, rr.key, s).Ok? && DecodePayload(false, rr.value, s).Ok? && HeadersAcceptable(rr.headers, s)
  }

  function DecodedRecord(rr: RawRecord, s: Setting): Record
    requires PartsDecode(rr, s)
  {
    Record(s.topic, DecodePayload(true, rr.key, s).value.bytes, DecodePayload(false, rr.value, s).value.bytes,
           DecodedHeaders(rr.headers, s), EffectivePartition(rr, s))
  }

  /** Everything the decoder demands of a record; a negative partition is tolerated only when the
      path overrides it. */
  predicate Acceptable(rr: RawRecord, s: Setting) {
    && PartsDecode(rr, s)
    && Length(DecodedRecord(rr, s).key) <= s.limits.maxKeyBytes
    && (s.path.None? && rr.partition.Some? ==> rr.partition.value >= 0)
    && SizeBytes(DecodedRecord(rr, s)) <= s.limits.maxRecordBytes
  }

  /** A complaint is raised only when it is true. */
  predicate Justified(c: Complaint, rr: RawRecord, s: Setting) {
    match c
    case BadKey => DecodePayload(true, rr.key, s).Err?
    case BadValue => DecodePayload(false, rr.value, s).Err?
    case BadHeaders => !HeadersAcceptable(rr.headers, s)
    case KeyTooLong => PartsDecode(rr, s) && Length(DecodedRecord(rr, s).key) > s.limits.maxKeyBytes
    case NegativePartition => s.path.None? && rr.partition.Some? && rr.partition.value < 0
    case RecordTooLarge => PartsDecode(rr, s) && SizeBytes(DecodedRecord(rr, s)) > s.limits.maxRecordBytes
  }

  /** The record was taken as a whole, or refused for a true reason. */
  predicate Decided(rr: RawRecord, s: Setting, r: Result<Record, Complaint>) {
    && (r.Ok? <==> Acceptable(rr, s))
    && (r.Ok? ==> r.value == DecodedRecord(rr, s))
    && (r.Err? ==> Justified(r.error, rr, s))
  }

  /** The body of the record loop, with the schema ids it saw. */
  method DecodeRecord(rr: RawRecord, s: Setting) returns (r: Result<Record, Complaint>, keyId: Option<int>, valueId: Option<int>)
    ensures Decided(rr, s, r)
    ensures r.Ok? ==> keyId == SchemaIdOf(true, rr, s) && valueId == SchemaIdOf(false, rr, s)
  {
    var key := DecodeV2NullableValue(true, rr.key, s);
    if key.Err? {
      return Err(BadKey), None, None;
    }
    var value := DecodeV2NullableValue(false, rr.value, s);
    if value.Err? {
      return Err(BadValue), None, None;
    }
    keyId, valueId := key.value.schemaId, value.value.schemaId;
    var headers := DecodeHeaders(rr.headers, s);
    if headers.None? {
      return Err(BadHeaders), keyId, valueId;
    }
    if Length(key.value.bytes) > s.limits.maxKeyBytes {
      return Err(KeyTooLong), keyId, valueId;
    }
    var partition := rr.partition;
    if s.path.Some? {
      partition := s.path;
    }
    if s.path.None? && rr.partition.Some? && rr.partition.value < 0 {
      return Err(NegativePartition), keyId, valueId;
    }
    var record := Record(s.topic, key.value.bytes, value.value.bytes, headers.value, partition);
    var size := ComputeSizeBytes(record);
    if size > s.limits.maxRecordBytes {
      return Err(RecordTooLarge), keyId, valueId;
    }
    return Ok(record), keyId, valueId;
  }

  function SchemaIdOf(isKey: bool, rr: RawRecord, s: Setting): Option<int> {
    var p := DecodePayload(isKey, if isKey then rr.key else rr.value, s);
    if p.Ok? then p.value.schemaId else None
  }

  /** The schema id reported for a side of the request is the first one any record carries. */
  ghost predicate IsFirstId(isKey: bool, rrs: seq<RawRecord>, n: nat, s: Setting, id: Option<int>)
    requires n <= |rrs|
  {
    if id.None? then forall i :: 0 <= i < n ==> SchemaIdOf(isKey, rrs[i], s).None?
    else exists i ::
      && 0 <= i < n && SchemaIdOf(isKey, rrs[i], s) == id
      && forall j :: 0 <= j < i ==> SchemaIdOf(isKey, rrs[j], s).None?
  }

  lemma {:induction false} FirstIdStep(isKey: bool, rrs: seq<RawRecord>, n: nat, s: Setting, id: Option<int>)
    requires n < |rrs| && IsFirstId(isKey, rrs, n, s, id)
    ensures IsFirstId(isKey, rrs, n + 1, s, if id.None? then SchemaIdOf(isKey, rrs[n], s) else id)
  {
  }

  /** The accepted list, record by record: same length, same order, one decoded record each. */
  ghost predicate DecodedList(rrs: seq<RawRecord>, n: nat, s: Setting, out: seq<Record>)
    requires n <= |rrs|
  {
    && |out| == n
    && (forall i :: 0 <= i < n ==> Acceptable(rrs[i], s))
    && (forall i :: 0 <= i < n ==> out[i] == DecodedRecord(rrs[i], s))
  }

  /** A list is taken as a whole, or refused at its first unacceptable record with a true complaint. */
  ghost predicate DecodesList(rrs: seq<RawRecord>, s: Setting, r: Result<Accepted, Failure>) {
    match r
    case Ok(a) =>
      && DecodedList(rrs, |rrs|, s, a.records)
      && IsFirstId(true, rrs, |rrs|, s, a.keySchemaId) && IsFirstId(false, rrs, |rrs|, s, a.valueSchemaId)
    case Err(e) =>
      && e.BadRecord? && e.index < |rrs|
      && !Acceptable(rrs[e.index], s) && Justified(e.complaint, rrs[e.index], s)
      && forall j :: 0 <= j < e.index ==> Acceptable(rrs[j], s)
  }

  /** What the decoder owes its caller. */
  ghost predicate Decodes(records: Option<seq<RawRecord>>, s: Setting, r: Result<Accepted, Failure>) {
    if records.None? then r == Err(Unprocessable("request body must include records"))
    else if records.value == [] then r == Err(Unprocessable("records must not be empty"))
    else if |records.value| > s.limits.maxRecords then r == Err(TooMany(|records.value|, s.limits.maxRecords))
    else DecodesList(records.value, s, r)
  }

  lemma {:induction false} DecodedListStep(rrs: seq<RawRecord>, i: nat, s: Setting, out: seq<Record>)
    requires i < |rrs| && DecodedList(rrs, i, s, out) && Acceptable(rrs[i], s)
    ensures DecodedList(rrs, i + 1, s, out + [DecodedRecord(rrs[i], s)])
  {
  }

  /** The record loop. */
  method DecodeRecords(rrs: seq<RawRecord>, s: Setting) returns (r: Result<Accepted, Failure>)
    ensures DecodesList(rrs, s, r)
  {
    var out: seq<Record>, keyId: Option<int>, valueId: Option<int> := [], None, None;
    for i := 0 to |rrs|
      invariant DecodedList(rrs, i, s, out)
      invariant IsFirstId(true, rrs, i, s, keyId) && IsFirstId(false, rrs, i, s, valueId)
    {
      var record, k, v := DecodeRecord(rrs[i], s);
      if record.Err? {
        return Err(BadRecord(i, record.error));
      }
      FirstIdStep(true, rrs, i, s, keyId);
      FirstIdStep(false, rrs, i, s, valueId);
      DecodedListStep(rrs, i, s, out);
      if keyId.None? {
        keyId := k;
      }
      if valueId.None? {
        valueId := v;
      }
      out := out + [record.value];
    }
    return Ok(Accepted(out, keyId, valueId));
  }

  /** decodeProduceRequestWithSchema, from the unmarshalled body on. */
  method DecodeProduceRequest(records: Option<seq<RawRecord>>, given: Setting) returns (r: Result<Accepted, Failure>)
    ensures Decodes(records, given.(limits := WithDefaults(given.limits)), r)
  {
    var s := given.(limits := WithDefaults(given.limits));
    if records.None? {
      return Err(Unprocessable("request body must include records"));
    }
    var rrs := records.value;
    if |rrs| == 0 {
      return Err(Unprocessable("records must not be empty"));
    }
    if |rrs| > s.limits.maxRecords {
      return Err(TooMany(|rrs|, s.limits.maxRecords));
    }
    r := DecodeRecords(rrs, s);
  }

  // ---------------------------------------------------------------------------------------
  // What acceptance guarantees downstream

  lemma {:induction false} DecodedRecordIsWithinLimits(rr: RawRecord, s: Setting)
    requires Acceptable(rr, s) && (s.path.Some? ==> s.path.value >= 0)
    ensures WithinLimits(DecodedRecord(rr, s), s.limits)
  {
    var headers := DecodedHeaders(rr.headers, s);
    forall i | 0 <= i < |headers|
      ensures HeaderWithin(headers[i], s.limits)
    {
      assert HeaderAcceptable(rr.headers[i], s);
    }
  }

  /** What bytes a value that may be missing decodes to, from its text: none when it is absent or
      null, else what base64 makes of it in the binary format and its compact rendering in any other. */
  predicate IsValue(bytes: Option<string>, v: NullableRaw, s: Setting) {
    if !v.present || (Json.Parse(v.raw).Some? && Json.Parse(v.raw).value.tree == Json.Atom("null")) then bytes.None?
    else if s.format.BinaryFormat? then bytes.Some? && s.codec.base64(v.raw) == Ok(bytes.value)
    else Json.Parse(v.raw).Some? ==> bytes == Some(Json.Print(Json.Squeeze(Json.Parse(v.raw).value.tree)))
  }

  /** The fields of the body are JSON texts. */
  ghost predicate IsJson(v: NullableRaw) {
    v.present ==> Json.Parse(v.raw).Some?
  }

  lemma {:induction false} DecodedValueIsOwn(v: NullableRaw, s: Setting)
    requires IsJson(v) && DecodeNullable(v, s).Ok?
    ensures IsValue(DecodeNullable(v, s).value, v, s)
  {
    if v.present {
      Compaction.NullIsRecognised(v.raw);
      Compaction.DecodersAgree(v.raw);
    }
  }

  /** The bytes of a key or value: those of the schema encoder under a schema format, told which side
      it is; else those of its text. */
  predicate IsPayload(bytes: Option<string>, isKey: bool, v: NullableRaw, s: Setting) {
    if s.format.SchemaFormat? then
      s.codec.encode.Some? && s.codec.encode.value(isKey, v).Ok? && bytes == s.codec.encode.value(isKey, v).value.bytes
    else IsValue(bytes, v, s)
  }

  lemma {:induction false} DecodedPayloadIsOwn(isKey: bool, v: NullableRaw, s: Setting)
    requires IsJson(v) && DecodePayload(isKey, v, s).Ok?
    ensures IsPayload(DecodePayload(isKey, v, s).value.bytes, isKey, v, s)
  {
    if !s.format.SchemaFormat? {
      DecodedValueIsOwn(v, s);
    }
  }

  /** Field by field: the record is this one, for the path's topic, in the path's partition when there
      is one. Header values are never schema-encoded. */
  predicate IsRecordOf(r: Record, rr: RawRecord, s: Setting) {
    && r.topic == s.topic
    && r.partition == (if s.path.Some? then s.path else rr.partition)
    && IsPayload(r.key, true, rr.key, s)
    && IsPayload(r.value, false, rr.value, s)
    && |r.headers| == |rr.headers|
    && forall j :: 0 <= j < |r.headers| ==> r.headers[j].key == rr.headers[j].key && IsValue(r.headers[j].value, rr.headers[j].value, s)
  }

  ghost predicate RecordIsJson(rr: RawRecord) {
    IsJson(rr.key) && IsJson(rr.value) && forall j :: 0 <= j < |rr.headers| ==> IsJson(rr.headers[j].value)
  }

  lemma {:induction false} DecodedRecordIsOwn(rr: RawRecord, s: Setting)
    requires PartsDecode(rr, s) && RecordIsJson(rr)
    ensures IsRecordOf(DecodedRecord(rr, s), rr, s)
  {
    DecodedPayloadIsOwn(true, rr.key, s);
    DecodedPayloadIsOwn(false, rr.value, s);
    forall j | 0 <= j < |rr.headers|
      ensures IsValue(DecodedHeader(rr.headers[j], s).value, rr.headers[j].value, s)
    {
      assert HeaderAcceptable(rr.headers[j], s);
      DecodedValueIsOwn(rr.headers[j].value, s);
    }
  }

  lemma {:induction false} ValueIsDecoded(bytes: Option<string>, v: NullableRaw, s: Setting)
    requires IsJson(v) && IsValue(bytes, v, s)
    ensures DecodeNullable(v, s) == Ok(bytes)
  {
    if v.present {
      Compaction.NullIsRecognised(v.raw);
      Compaction.DecodersAgree(v.raw);
    }
  }

  lemma {:induction false} PayloadIsDecoded(bytes: Option<string>, isKey: bool, v: NullableRaw, s: Setting)
    requires IsJson(v) && IsPayload(bytes, isKey, v, s)
    ensures DecodePayload(isKey, v, s).Ok? && DecodePayload(isKey, v, s).value.bytes == bytes
  {
    if !s.format.SchemaFormat? {
      ValueIsDecoded(bytes, v, s);
    }
  }

  predicate HeadersPresent(headers: seq<RawHeader>) {
    forall j :: 0 <= j < |headers| ==> headers[j].value.present
  }

  /** A record that is this one, field by field, and fits the limits is the one the decoder makes. */
  lemma {:induction false} FittingRecordIsDecoded(r: Record, rr: RawRecord, s: Setting)
    requires RecordIsJson(rr) && HeadersPresent(rr.headers) && IsRecordOf(r, rr, s) && WithinLimits(r, s.limits)
    ensures PartsDecode(rr, s) && r == DecodedRecord(rr, s)
  {
    PayloadIsDecoded(r.key, true, rr.key, s);
    PayloadIsDecoded(r.value, false, rr.value, s);
    forall j | 0 <= j < |rr.headers|
      ensures HeaderAcceptable(rr.headers[j], s) && r.headers[j] == DecodedHeader(rr.headers[j], s)
    {
      assert HeaderWithin(r.headers[j], s.limits);
      ValueIsDecoded(r.headers[j].value, rr.headers[j].value, s);
    }
    assert r.headers == DecodedHeaders(rr.headers, s);
  }

  /** A record of the body is acceptable if and only if its header values are there and there is a record
      that is this one, field by field, and fits the limits; a path's partition is never negative. */
  lemma {:induction false} AcceptableIffFits(rr: RawRecord, s: Setting)
    requires RecordIsJson(rr) && (s.path.Some? ==> s.path.value >= 0)
    ensures Acceptable(rr, s) <==>
            HeadersPresent(rr.headers) && exists r: Record :: IsRecordOf(r, rr, s) && WithinLimits(r, s.limits)
  {
    if Acceptable(rr, s) {
      DecodedRecordIsOwn(rr, s);
      DecodedRecordIsWithinLimits(rr, s);
      assert forall j :: 0 <= j < |rr.headers| ==> HeaderAcceptable(rr.headers[j], s);
      assert IsRecordOf(DecodedRecord(rr, s), rr, s) && WithinLimits(DecodedRecord(rr, s), s.limits);
    }
    if HeadersPresent(rr.headers) && exists r: Record :: IsRecordOf(r, rr, s) && WithinLimits(r, s.limits) {
      var r: Record :| IsRecordOf(r, rr, s) && WithinLimits(r, s.limits);
      FittingRecordIsDecoded(r, rr, s);
    }
  }

  /** Record i of every accepted list is field by field the i-th of the body. */
  lemma {:induction false} AcceptedRecordsAreOwn(records: Option<seq<RawRecord>>, s: Setting, r: Result<Accepted, Failure>, i: nat)
    requires Decodes(records, s, r) && r.Ok? && i < |r.value.records|
    requires i < |records.value| ==> RecordIsJson(records.value[i])
    ensures i < |records.value| && IsRecordOf(r.value.records[i], records.value[i], s)
  {
    DecodedRecordIsOwn(records.value[i], s);
  }

  function Side(isKey: bool, rr: RawRecord): NullableRaw {
    if isKey then rr.key else rr.value
  }

  /** The schema id this side of the record was encoded with: none outside the schema formats. */
  predicate HasSchemaId(isKey: bool, rr: RawRecord, s: Setting, id: Option<int>) {
    if s.format.SchemaFormat? then
      s.codec.encode.Some? && s.codec.encode.value(isKey, Side(isKey, rr)).Ok? && id == s.codec.encode.value(isKey, Side(isKey, rr)).value.schemaId
    else id.None?
  }

  /** This is the first id with which any record's side was encoded. */
  ghost predicate IsFirstSchemaId(isKey: bool, rrs: seq<RawRecord>, s: Setting, id: Option<int>) {
    if id.None? then forall i :: 0 <= i < |rrs| ==> HasSchemaId(isKey, rrs[i], s, None)
    else exists i ::
      && 0 <= i < |rrs| && HasSchemaId(isKey, rrs[i], s, id)
      && forall j :: 0 <= j < i ==> HasSchemaId(isKey, rrs[j], s, None)
  }

  lemma {:induction false} SchemaIdIsOwn(isKey: bool, rr: RawRecord, s: Setting)
    requires PartsDecode(rr, s)
    ensures HasSchemaId(isKey, rr, s, SchemaIdOf(isKey, rr, s))
  {
  }

  lemma {:induction false} FirstIdIsOwn(isKey: bool, rrs: seq<RawRecord>, s: Setting, id: Option<int>)
    requires forall i :: 0 <= i < |rrs| ==> PartsDecode(rrs[i], s)
    requires IsFirstId(isKey, rrs, |rrs|, s, id)
    ensures IsFirstSchemaId(isKey, rrs, s, id)
  {
    forall i | 0 <= i < |rrs|
      ensures HasSchemaId(isKey, rrs[i], s, SchemaIdOf(isKey, rrs[i], s))
    {
      SchemaIdIsOwn(isKey, rrs[i], s);
    }
  }

  /** The key schema id of an accepted list is the first one of a key, the value's the first of a value. */
  lemma {:induction false} AcceptedIdsAreOwn(records: Option<seq<RawRecord>>, s: Setting, r: Result<Accepted, Failure>)
    requires Decodes(records, s, r) && r.Ok?
    ensures IsFirstSchemaId(true, records.value, s, r.value.keySchemaId)
    ensures IsFirstSchemaId(false, records.value, s, r.value.valueSchemaId)
  {
    FirstIdIsOwn(true, records.value, s, r.value.keySchemaId);
    FirstIdIsOwn(false, records.value, s, r.value.valueSchemaId);
  }

  /** Acceptance is exactly: a list of 1 to MaxRecords acceptable records. */
  lemma {:induction false} AcceptedIff(records: Option<seq<RawRecord>>, s: Setting, r: Result<Accepted, Failure>)
    requires Decodes(records, s, r)
    ensures r.Ok? <==>
      && records.Some? && 1 <= |records.value| <= s.limits.maxRecords
      && forall i :: 0 <= i < |records.value| ==> Acceptable(records.value[i], s)
  {
  }

  /** Every accepted list keeps input order and path topic, has 1 to MaxRecords records, each within
      every limit, with an absent or non-negative partition: the path's for all when given. A path
      partition is non-negative by Paths.TargetsAreValid. */
  lemma {:induction false} AcceptedListIsWithinLimits(records: Option<seq<RawRecord>>, s: Setting, r: Result<Accepted, Failure>)
    requires Decodes(records, s, r) && r.Ok? && (s.path.Some? ==> s.path.value >= 0)
    ensures 1 <= |r.value.records| == |records.value| <= s.limits.maxRecords
    ensures forall i :: 0 <= i < |r.value.records| ==>
              var out := r.value.records[i];
              && WithinLimits(out, s.limits)
              && out.topic == s.topic
              && out.partition == if s.path.Some? then s.path else records.value[i].partition
  {
    forall i | 0 <= i < |r.value.records|
      ensures WithinLimits(r.value.records[i], s.limits)
    {
      DecodedRecordIsWithinLimits(records.value[i], s);
    }
  }

  lemma {:induction false} ProductGrows(a: nat, b: nat, c: nat)
    requires a <= b
    ensures a * c <= b * c
  {
  }

  /** So the bytes Produce charges are at most MaxRecords times MaxRecordBytes. */
  lemma {:induction false} AcceptedBytesAreBounded(records: Option<seq<RawRecord>>, s: Setting, r: Result<Accepted, Failure>)
    requires Decodes(records, s, r) && r.Ok?
    ensures TotalBytes(r.value.records) <= s.limits.maxRecords * s.limits.maxRecordBytes
  {
    assert Acceptable(records.value[0], s);
    TotalBytesBound(r.value.records, s.limits.maxRecordBytes);
    ProductGrows(|r.value.records|, s.limits.maxRecords, s.limits.maxRecordBytes);
  }

  /** And when that fits below 2^63 together with every admission limit that is on, the admission
      arithmetic of no reachable producer state wraps on an accepted list. */
  lemma {:induction false} AcceptedListNeverWraps(records: Option<seq<RawRecord>>, s: Setting, r: Result<Accepted, Failure>,
                                                  run: Run, maxRecords: int, maxBytes: int, k: nat)
    requires Decodes(records, s, r) && r.Ok?
    requires ValidRun(run, maxRecords, maxBytes) && k < |run.states|
    requires
      var most := s.limits.maxRecords * s.limits.maxRecordBytes;
      && s.limits.maxRecords < TWO_63 && most < TWO_63
      && Fits(maxRecords, s.limits.maxRecords) && Fits(maxBytes, most)
    ensures ProduceTheorems.AdmissionIsExact(run.states[k].ledger, |r.value.records|, TotalBytes(r.value.records))
  {
    AcceptedBytesAreBounded(records, s, r);
    ProduceTheorems.ReachableAdmissionNeverWraps(run, maxRecords, maxBytes, k, |r.value.records|, TotalBytes(r.value.records));
  }
}
