/** Schema-aware payloads (internal/schema/encoder.go): the Confluent wire format, the choice of
    the protobuf message, and what ties a frame to the registry. Bytes are characters below 256. */
module WireFormat {
  import opened Base
  import opened SchemaTypes
  import opened Registry
  import opened V3Records
  import Compaction

  const TWO_32: int := 0x1_0000_0000

  // ---------------------------------------------------------------------------------------
  // Framing

  function Byte(n: int): (c: char)
    requires 0 <= n < 256
    ensures c as int == n
  {
    n as char
  }

  /** uint32(schemaID): truncation to 32 bits, two's complement for negative ids. */
  function Truncate32(id: int): (n: int)
    ensures 0 <= n < TWO_32
    ensures n == id <==> 0 <= id < TWO_32
  {
    id % TWO_32
  }

  /** binary.BigEndian.PutUint32 */
  function BigEndian(n: int): (bytes: string)
    requires 0 <= n < TWO_32
    ensures |bytes| == 4
  {
    var n1 := n / 0x100;
    var n2 := n1 / 0x100;
    [Byte(n2 / 0x100), Byte(n2 % 0x100), Byte(n1 % 0x100), Byte(n % 0x100)]
  }

  function FromBigEndian(bytes: string): int
    requires |bytes| == 4
  {
    ((bytes[0] as int * 0x100 + bytes[1] as int) * 0x100 + bytes[2] as int) * 0x100 + bytes[3] as int
  }

  /** What precedes the payload: magic byte, id, and for protobuf the message index. */
  function Prefix(id: int, typ: string): (p: string)
    ensures |p| == PrefixLength(typ)
  {
    [Byte(0)] + BigEndian(Truncate32(id)) + (if typ == PROTOBUF then [Byte(0)] else "")
  }

  function PrefixLength(typ: string): nat {
    if typ == PROTOBUF then 6 else 5
  }

  function Frame(id: int, typ: string, payload: string): string {
    Prefix(id, typ) + payload
  }

  /** The consumer's side: the id and payload of a frame, if it is one. */
  function Unframe(typ: string, frame: string): Option<(int, string)> {
    var n := PrefixLength(typ);
    if |frame| < n || frame[0] != Byte(0) || (n == 6 && frame[5] != Byte(0)) then None
    else Some((FromBigEndian(frame[1..5]), frame[n..]))
  }

  /** appendConfluentWireFormat, append by append. */
  method AppendConfluentWireFormat(dst: string, schemaId: int, typ: string, payload: string) returns (out: string)
    ensures out == dst + Frame(schemaId, typ, payload)
  {
    out := dst + [Byte(0)];
    var id := BigEndian(Truncate32(schemaId));
    out := out + id;
    if typ == PROTOBUF {
      out := out + [Byte(0)];
    }
    out := out + payload;
    assert out == dst + (Prefix(schemaId, typ) + payload);
  }

  lemma {:induction false} BigEndianRoundTrip(n: int)
    requires 0 <= n < TWO_32
    ensures AreBytes(BigEndian(n)) && FromBigEndian(BigEndian(n)) == n
  {
  }

  /** One step of positional notation. */
  lemma {:induction false} LastDigit(high: int, low: int)
    requires 0 <= low < 0x100
    ensures (high * 0x100 + low) / 0x100 == high && (high * 0x100 + low) % 0x100 == low
  {
  }

  lemma {:induction false} FromBigEndianRoundTrip(bytes: string)
    requires |bytes| == 4 && AreBytes(bytes)
    ensures 0 <= FromBigEndian(bytes) < TWO_32
    ensures BigEndian(FromBigEndian(bytes)) == bytes
  {
    var n2 := bytes[0] as int * 0x100 + bytes[1] as int;
    var n1 := n2 * 0x100 + bytes[2] as int;
    LastDigit(bytes[0] as int, bytes[1] as int);
    LastDigit(n2, bytes[2] as int);
    LastDigit(n1, bytes[3] as int);
  }

  /** Decoding a frame gives its payload and its id, the latter modulo 2^32: exactly the id when it
      fits 32 bits, and never otherwise. */
  lemma {:induction false} FrameRoundTrip(id: int, typ: string, payload: string)
    ensures Unframe(typ, Frame(id, typ, payload)) == Some((Truncate32(id), payload))
    ensures Unframe(typ, Frame(id, typ, payload)) == Some((id, payload)) <==> 0 <= id < TWO_32
  {
    var frame := Frame(id, typ, payload);
    assert frame[1..5] == BigEndian(Truncate32(id));
    assert frame[PrefixLength(typ)..] == payload;
    BigEndianRoundTrip(Truncate32(id));
  }

  /** Every byte string that decodes is the frame of what it decodes to. */
  lemma {:induction false} UnframeRoundTrip(typ: string, frame: string)
    requires AreBytes(frame) && Unframe(typ, frame).Some?
    ensures
      var (id, payload) := Unframe(typ, frame).value;
      0 <= id < TWO_32 && Frame(id, typ, payload) == frame
  {
    assert AreBytes(frame[1..5]);
    FromBigEndianRoundTrip(frame[1..5]);
    var n := PrefixLength(typ);
    assert frame[..n] == [frame[0]] + frame[1..5] + (if n == 6 then [frame[5]] else "");
    assert frame == frame[..n] + frame[n..];
  }

  /** So frames of one type are injective on ids that fit. */
  lemma {:induction false} FramesAreInjective(typ: string, id: int, payload: string, id': int, payload': string)
    requires 0 <= id < TWO_32 && 0 <= id' < TWO_32
    ensures Frame(id, typ, payload) == Frame(id', typ, payload') <==> id == id' && payload == payload'
  {
    FrameRoundTrip(id, typ, payload);
    FrameRoundTrip(id', typ, payload');
  }

  // ---------------------------------------------------------------------------------------
  // Which protobuf message is encoded

  datatype Message = Message(name: string, nested: seq<Message>)

  /** The message a path of indexes names. */
  function MessageAt(messages: seq<Message>, path: seq<nat>): Option<Message>
    decreases |path|
  {
    if path == [] || path[0] >= |messages| then None
    else if |path| == 1 then Some(messages[path[0]])
    else MessageAt(messages[path[0]].nested, path[1..])
  }

  function Zeros(n: nat): (z: seq<nat>)
    ensures |z| == n && forall i :: 0 <= i < n ==> z[i] == 0
  {
    seq(n, _ => 0)
  }

  /** How far down the first-child chain goes. */
  function Depth(m: Message): (d: nat)
    ensures d >= 1 && (d == 1 <==> m.nested == [])
  {
    if m.nested == [] then 1 else 1 + Depth(m.nested[0])
  }

  lemma {:induction false} MessageAtZeros(messages: seq<Message>, n: nat)
    requires messages != [] && n >= 1
    ensures MessageAt(messages, Zeros(n + 1))
            == (if messages[0].nested == [] then None else MessageAt(messages[0].nested, Zeros(n)))
  {
    assert Zeros(n + 1)[1..] == Zeros(n);
  }

  /** firstMessage: walks to the leftmost leaf, the one at index path [0, 0, ..., 0] that has no
      nested message. encodeProtobuf has refused a file without messages. */
  method FirstMessage(messages: seq<Message>) returns (msg: Message)
    requires messages != []
    ensures msg.nested == []
    ensures MessageAt(messages, Zeros(Depth(messages[0]))) == Some(msg)
  {
    msg := messages[0];
    ghost var depth := 1;
    while |msg.nested| > 0
      invariant depth >= 1 && MessageAt(messages, Zeros(depth)) == Some(msg)
      invariant Depth(messages[0]) == depth - 1 + Depth(msg)
      decreases msg
    {
      ChildAtZeros(messages, depth, msg);
      msg := msg.nested[0];
      depth := depth + 1;
    }
  }

  lemma {:induction false} ChildAtZeros(messages: seq<Message>, n: nat, m: Message)
    requires n >= 1 && MessageAt(messages, Zeros(n)) == Some(m) && m.nested != []
    ensures MessageAt(messages, Zeros(n + 1)) == Some(m.nested[0])
    decreases n
  {
    MessageAtZeros(messages, n);
    if n == 1 {
      assert MessageAt(m.nested, Zeros(1)) == Some(m.nested[0]);
    } else {
      MessageAtZeros(messages, n - 1);
      ChildAtZeros(messages[0].nested, n - 1, m);
    }
  }

  /** The single zero byte of the frame means path [0]. */
  const FRAMED_PATH: seq<nat> := [0]

  lemma {:induction false} DepthOfLeaf(messages: seq<Message>, leaf: Message)
    requires messages != [] && MessageAt(messages, Zeros(Depth(messages[0]))) == Some(leaf)
    ensures leaf.nested == []
    decreases Depth(messages[0])
  {
    if messages[0].nested != [] {
      MessageAtZeros(messages, Depth(messages[0]) - 1);
      DepthOfLeaf(messages[0].nested, leaf);
    }
  }

  /** The frame names the message that was encoded exactly when the first top-level message has no
      nested message; otherwise it names an ancestor of it. */
  lemma {:induction false} ZeroByteNamesMessageIff(messages: seq<Message>, msg: Message)
    requires messages != [] && MessageAt(messages, Zeros(Depth(messages[0]))) == Some(msg)
    ensures MessageAt(messages, FRAMED_PATH) == Some(msg) <==> messages[0].nested == []
  {
    DepthOfLeaf(messages, msg);
    assert Zeros(1) == FRAMED_PATH;
  }

  lemma {:induction false} NestedMessageIsMisnamed()
    ensures
      var inner := Message("Inner", []);
      var outer := Message("Outer", [inner]);
      && MessageAt([outer], Zeros(Depth(outer))) == Some(inner)
      && MessageAt([outer], FRAMED_PATH) == Some(outer)
  {
    var inner := Message("Inner", []);
    var outer := Message("Outer", [inner]);
    assert Depth(outer) == 1 + Depth(inner);
    MessageAtZeros([outer], 1);
    assert MessageAt([inner], Zeros(1)) == Some(inner);
  }

  // ---------------------------------------------------------------------------------------
  // Frames and the registry

  datatype Data = Data(
    present: bool,
    raw: string,
    subject: string,
    strategy: string,
    schemaId: Option<int>,
    version: Option<int>,
    schema: string)

  datatype EncodeError = NoRegistry(kind: string) | Unresolved(why: Lookup) | Unsupported(typ: string) | NotEncodable(message: string)

  function RequestFor(subject: string, typ: string, d: Data): ResolveRequest {
    ResolveRequest(subject, typ, d.schemaId, d.version, d.schema)
  }

  const RECORD_NAME: string := "RECORD_NAME"
  const TOPIC_RECORD_NAME: string := "TOPIC_RECORD_NAME"

  /** resolveSubject: an explicit subject wins, then the naming strategy, then the topic's own subject.
      `recordName` stands for schemaRecordName, which reads the name out of the schema text. */
  function ResolveSubject(topic: string, isKey: bool, d: Data, kind: string, recordName: (string, string) -> string): string {
    var strategy := Upper(Compaction.TrimSpace(d.strategy));
    var name := recordName(kind, d.schema);
    if Compaction.TrimSpace(d.subject) != "" then Compaction.TrimSpace(d.subject)
    else if strategy == RECORD_NAME && name != "" then name
    else if strategy == TOPIC_RECORD_NAME && name != "" then topic + "-" + name
    else topic + "-" + (if isKey then "key" else "value")
  }

  /** The encoder never asks the registry without a subject, so that error cannot come from it. */
  lemma {:induction false} SubjectIsNeverMissing(s: State, topic: string, isKey: bool, d: Data, kind: string,
                                                 recordName: (string, string) -> string)
    ensures Answer(s, RequestFor(ResolveSubject(topic, isKey, d, kind, recordName), kind, d)) != Err(SubjectRequired)
  {
    var subject := ResolveSubject(topic, isKey, d, kind, recordName);
    assert subject != "" by {
      assert |topic + "-" + (if isKey then "key" else "value")| > 0;
    }
  }

  /** Which subject is asked for, strategy by strategy; names of strategies in any case and spacing. */
  lemma {:induction false} SubjectsByStrategy(topic: string, isKey: bool, d: Data, kind: string, recordName: (string, string) -> string)
    ensures
      var subject := ResolveSubject(topic, isKey, d, kind, recordName);
      var strategy := Upper(Compaction.TrimSpace(d.strategy));
      var name := recordName(kind, d.schema);
      if Compaction.TrimSpace(d.subject) != "" then subject == Compaction.TrimSpace(d.subject)
      else if strategy == "RECORD_NAME" && name != "" then subject == name
      else if strategy == "TOPIC_RECORD_NAME" && name != "" then subject == topic + "-" + name
      else (isKey ==> subject == topic + "-key") && (!isKey ==> subject == topic + "-value")
  {
    assert topic + "-" + "key" == topic + "-key";
    assert topic + "-" + "value" == topic + "-value";
  }

  /** The bytes of a frame, one by one. */
  lemma {:induction false} FrameBytes(id: int, typ: string, payload: string)
    requires 0 <= id < TWO_32
    ensures
      var f := Frame(id, typ, payload);
      && |f| == |payload| + (if typ == "PROTOBUF" then 6 else 5)
      && f[0] as int == 0
      && f[1] as int * 0x100_0000 + f[2] as int * 0x1_0000 + f[3] as int * 0x100 + f[4] as int == id
      && (typ == "PROTOBUF" ==> f[5] as int == 0 && f[6..] == payload)
      && (typ != "PROTOBUF" ==> f[5..] == payload)
  {
    BigEndianRoundTrip(id);
    var bytes := BigEndian(id);
    assert Frame(id, typ, payload)[1..5] == bytes;
  }

  predicate IsNull(d: Data) {
    !d.present || Compaction.IsJSONNull(d.raw)
  }

  predicate IsKnown(typ: string) {
    typ == AVRO || typ == JSON_SCHEMA || typ == PROTOBUF
  }

  /** encodeSchemaAware over the in-memory registry, if there is one. `encoder` stands for the three
      serialisers. */
  method EncodeSchemaAware(registry: MemoryRegistry?, topic: string, isKey: bool, kind: string, d: Data,
                           recordName: (string, string) -> string,
                           encoder: (string, string, string) -> Result<string, string>)
    returns (r: Result<Option<string>, EncodeError>, meta: Metadata)
    modifies if registry == null then {} else {registry}
    ensures IsNull(d) ==> r == Ok(None) && meta == NO_METADATA.(kind := kind)
    ensures IsNull(d) && registry != null ==> registry.Value() == old(registry.Value())
    ensures !IsNull(d) && registry == null ==> r == Err(NoRegistry(kind))
    ensures !IsNull(d) && registry != null ==>
      var subject := ResolveSubject(topic, isKey, d, kind, recordName);
      var req := ResolveRequest(subject, kind, d.schemaId, d.version, d.schema);
      && registry.Value() == Next(old(registry.Value()), req)
      && Framed(Answer(old(registry.Value()), req), subject, kind, d.raw, encoder, r, meta)
    ensures r.Err? ==> meta == NO_METADATA
  {
    if !d.present || Compaction.IsJSONNull(d.raw) {
      return Ok(None), NO_METADATA.(kind := kind);
    }
    meta := NO_METADATA;
    if registry == null {
      return Err(NoRegistry(kind)), meta;
    }
    var subject := ResolveSubject(topic, isKey, d, kind, recordName);
    var resolved := registry.Resolve(RequestFor(subject, kind, d));
    if resolved.Err? {
      return Err(Unresolved(resolved.error)), meta;
    }
    var e := resolved.value;
    var typ := kind;
    if e.kind != "" {
      typ := e.kind;
    }
    if !IsKnown(typ) {
      return Err(Unsupported(typ)), meta;
    }
    var encoded := encoder(typ, e.schema, d.raw);
    if encoded.Err? {
      return Err(NotEncodable(encoded.error)), meta;
    }
    var wire := AppendConfluentWireFormat("", e.schemaId, typ, encoded.value);
    assert wire == Frame(e.schemaId, typ, encoded.value);
    meta := Metadata(typ, |wire|, FirstNonBlank(e.subject, subject), Some(e.schemaId), Some(e.version));
    return Ok(Some(wire)), meta;
  }

  /** firstNonEmpty of two texts. */
  function FirstNonBlank(a: string, b: string): string {
    if Compaction.TrimSpace(a) != "" then a
    else if Compaction.TrimSpace(b) != "" then b
    else ""
  }

  /** A payload leaves the encoder only as the frame of its own schema's id, and is reported under
      that id, version and type with the size of the frame. */
  predicate Framed(resolved: Result<Resolved, Lookup>, subject: string, kind: string, raw: string,
                   encoder: (string, string, string) -> Result<string, string>,
                   r: Result<Option<string>, EncodeError>, meta: Metadata) {
    if resolved.Err? then r == Err(Unresolved(resolved.error))
    else
      var e := resolved.value;
      var typ := if e.kind != "" then e.kind else kind;
      var encoded := encoder(typ, e.schema, raw);
      if typ != "AVRO" && typ != "JSONSCHEMA" && typ != "PROTOBUF" then r == Err(Unsupported(typ))
      else if encoded.Err? then r == Err(NotEncodable(encoded.error))
      else
        && r == Ok(Some(Frame(e.schemaId, typ, encoded.value)))
        && meta.kind == typ && meta.schemaId == Some(e.schemaId) && meta.schemaVersion == Some(e.version)
        && meta.size == |encoded.value| + (if typ == "PROTOBUF" then 6 else 5)
        && (Compaction.TrimSpace(e.subject) != "" ==> meta.subject == e.subject)
        && (Compaction.TrimSpace(e.subject) == "" && Compaction.TrimSpace(subject) != "" ==> meta.subject == subject)
  }

  /** Any answer, however it was selected, is the entry the registry keeps under that id from then on;
      only the subject is the requested one. */
  lemma {:induction false} AnswerIsStored(reqs: seq<ResolveRequest>, req: ResolveRequest, later: seq<ResolveRequest>)
    requires Answer(After(reqs), req).Ok?
    ensures
      var e := Answer(After(reqs), req).value;
      var s := After(reqs + [req] + later);
      e.schemaId in s.byId && e == s.byId[e.schemaId].(subject := e.subject) && 1 <= e.schemaId <= Registrations(reqs) + 1
  {
    var run := reqs + [req];
    assert run[..|run| - 1] == reqs;
    RunsStayConsistent(reqs);
    NumbersCountRegistrations(reqs, req.subject);
    RunsExtend(run, later);
    StoredByNext(After(reqs), req);
  }

  lemma {:induction false} StoredByNext(s: State, req: ResolveRequest)
    requires Consistent(s) && Answer(s, req).Ok?
    ensures
      var e := Answer(s, req).value;
      && e.schemaId in Next(s, req).byId && e == Next(s, req).byId[e.schemaId].(subject := e.subject)
      && 1 <= e.schemaId <= s.nextId
  {
    var vs := VersionsOf(s, req.subject);
    if req.schemaId.None? && !Registers(req) {
      var k := if req.version.Some? then req.version.value - 1 else |vs| - 1;
      assert SlotOk(s, req.subject, k, vs[k]);
    } else if req.schemaId.Some? {
      assert EntryOk(s, req.schemaId.value, s.byId[req.schemaId.value]);
    }
  }

  /** A consumer that reads the id out of a frame and asks the registry for it, however many requests
      later, finds the schema text, type and version the payload was written with, whichever way the
      encoder had selected the schema; the registry has fewer than 2^32 schemas. */
  lemma {:induction false} FramedSchemaIsFound(reqs: seq<ResolveRequest>, req: ResolveRequest, later: seq<ResolveRequest>, payload: string)
    requires Answer(After(reqs), req).Ok? && Registrations(reqs) + 1 < TWO_32
    ensures
      var e := Answer(After(reqs), req).value;
      var decoded := Unframe(e.kind, Frame(e.schemaId, e.kind, payload));
      && decoded.Some? && decoded.value.1 == payload
      && var found := Answer(After(reqs + [req] + later), ResolveRequest("", "", Some(decoded.value.0), None, ""));
      && found.Ok? && found.value.(subject := e.subject) == e
      && (Registers(req) ==> found.value.schema == req.schema && found.value.subject == req.subject)
  {
    AnswerIsStored(reqs, req, later);
    if Registers(req) {
      RegisteredTextIsFound(reqs, req, later, ResolveRequest("", "", Some(Registrations(reqs) + 1), None, ""));
      RegistrationIsOwn(reqs, req);
    }
    FrameRoundTrip(Answer(After(reqs), req).value.schemaId, Answer(After(reqs), req).value.kind, payload);
  }
}
