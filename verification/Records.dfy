/** The service-internal record and result types (internal/producer/producer.go).
    Payload bytes are strings; a nil byte slice is `None`. */
module Records {
  import opened Base

  datatype Header = Header(key: string, value: Option<string>)

  datatype Record = Record(
    topic: string,
    key: Option<string>,
    value: Option<string>,
    headers: seq<Header>,
    partition: Option<int>)

  /** The bytes that occur in text which is not UTF-8. */
  type InvalidByte = b: int | 0x80 <= b < 0x100 witness 0x80

  /** What Go's decoder sees at one position of a string. */
  datatype Rune = Char(c: char) | BadByte(b: InvalidByte)

  /** The text of an error: any bytes, read rune by rune. */
  type Message = seq<Rune>

  function AsMessage(s: string): (m: Message)
    ensures |m| == |s|
  {
    seq(|s|, i requires 0 <= i < |s| => Char(s[i]))
  }

  /** encoding/json shows an invalid byte as the replacement character. */
  function Shown(m: Message): (s: string)
    ensures |s| == |m|
  {
    seq(|m|, i requires 0 <= i < |m| => if m[i].Char? then m[i].c else '\U{FFFD}')
  }

  datatype ProduceResult = ProduceResult(partition: int, offset: int, errorCode: Option<int>, err: Option<Message>)

  /** len of a possibly nil byte slice. */
  function Length(bytes: Option<string>): nat {
    if bytes.Some? then |bytes.value| else 0
  }

  function HeaderBytes(headers: seq<Header>): nat {
    if headers == [] then 0
    else HeaderBytes(headers[..|headers| - 1]) + |headers[|headers| - 1].key| + Length(headers[|headers| - 1].value)
  }

  function SizeBytes(r: Record): nat {
    Length(r.key) + Length(r.value) + HeaderBytes(r.headers)
  }

  /** Bytes held by a batch: what Produce charges to the admission controller. */
  function TotalBytes(records: seq<Record>): nat {
    if records == [] then 0
    else TotalBytes(records[..|records| - 1]) + SizeBytes(records[|records| - 1])
  }

  // The size is a length: that of everything the record carries, laid end to end.

  function Bytes(o: Option<string>): string {
    if o.Some? then o.value else ""
  }

  function AllHeaderBytes(headers: seq<Header>): string {
    if headers == [] then "" else headers[0].key + Bytes(headers[0].value) + AllHeaderBytes(headers[1..])
  }

  function AllBytes(r: Record): string {
    Bytes(r.key) + Bytes(r.value) + AllHeaderBytes(r.headers)
  }

  function AllBatchBytes(records: seq<Record>): string {
    if records == [] then "" else AllBytes(records[0]) + AllBatchBytes(records[1..])
  }

  lemma {:induction false} HeaderBytesFirst(headers: seq<Header>)
    requires headers != []
    ensures HeaderBytes(headers) == |headers[0].key| + Length(headers[0].value) + HeaderBytes(headers[1..])
  {
    if |headers| > 1 {
      HeaderBytesFirst(headers[..|headers| - 1]);
      assert headers[..|headers| - 1][1..] == headers[1..][..|headers| - 2];
    } else {
      assert headers[..0] == headers[1..] == [];
    }
  }

  lemma {:induction false} HeaderBytesAreLength(headers: seq<Header>)
    ensures HeaderBytes(headers) == |AllHeaderBytes(headers)|
  {
    if headers != [] {
      HeaderBytesFirst(headers);
      HeaderBytesAreLength(headers[1..]);
    }
  }

  lemma {:induction false} SizeIsLength(r: Record)
    ensures SizeBytes(r) == |AllBytes(r)|
  {
    HeaderBytesAreLength(r.headers);
  }

  lemma {:induction false} TotalBytesFirst(records: seq<Record>)
    requires records != []
    ensures TotalBytes(records) == SizeBytes(records[0]) + TotalBytes(records[1..])
  {
    if |records| > 1 {
      TotalBytesFirst(records[..|records| - 1]);
      assert records[..|records| - 1][1..] == records[1..][..|records| - 2];
    } else {
      assert records[..0] == records[1..] == [];
    }
  }

  lemma {:induction false} TotalIsLength(records: seq<Record>)
    ensures TotalBytes(records) == |AllBatchBytes(records)|
  {
    if records != [] {
      TotalBytesFirst(records);
      SizeIsLength(records[0]);
      TotalIsLength(records[1..]);
    }
  }

  /** Record.SizeBytes: the accumulating loop over the headers. */
  method ComputeSizeBytes(r: Record) returns (n: nat)
    ensures n == SizeBytes(r)
  {
    n := Length(r.key) + Length(r.value);
    for i := 0 to |r.headers|
      invariant n == Length(r.key) + Length(r.value) + HeaderBytes(r.headers[..i])
    {
      assert r.headers[..i + 1][..i] == r.headers[..i];
      n := n + |r.headers[i].key| + Length(r.headers[i].value);
    }
    assert r.headers[..|r.headers|] == r.headers;
  }

  /** The byte-sum loop at the head of Produce. */
  method ComputeTotalBytes(records: seq<Record>) returns (bytes: nat)
    ensures bytes == TotalBytes(records)
  {
    bytes := 0;
    for i := 0 to |records|
      invariant bytes == TotalBytes(records[..i])
    {
      assert records[..i + 1][..i] == records[..i];
      var size := ComputeSizeBytes(records[i]);
      bytes := bytes + size;
    }
    assert records[..|records|] == records;
  }

  /** If every record is within `perRecord`, the whole batch is within the product. */
  lemma {:induction false} TotalBytesBound(records: seq<Record>, perRecord: nat)
    requires forall i :: 0 <= i < |records| ==> SizeBytes(records[i]) <= perRecord
    ensures TotalBytes(records) <= |records| * perRecord
  {
    if records != [] {
      TotalBytesBound(records[..|records| - 1], perRecord);
      assert |records| * perRecord == (|records| - 1) * perRecord + perRecord;
    }
  }

  /** The code every failed record carries. */
  const RECORD_ERROR_CODE: int := 50002

  function ResultErrorCode(r: ProduceResult): int {
    if r.errorCode.Some? then r.errorCode.value else RECORD_ERROR_CODE
  }

  function ResultErrorMessage(r: ProduceResult): Message {
    if r.err.Some? then r.err.value else AsMessage("Kafka produce failed")
  }

  /** The error code and text a failed record is reported with, on the result's own fields. */
  lemma {:induction false} FailureIsReported(r: ProduceResult)
    ensures ResultFailed(r) <==> r.err.Some? || r.errorCode.Some?
    ensures r.errorCode.Some? ==> ResultErrorCode(r) == r.errorCode.value
    ensures r.errorCode.None? ==> ResultErrorCode(r) == 50002
    ensures r.err.Some? ==> ResultErrorMessage(r) == r.err.value
    ensures r.err.None? ==> Shown(ResultErrorMessage(r)) == "Kafka produce failed"
  {
    var text := "Kafka produce failed";
    assert Shown(AsMessage(text)) == text;
  }

  /** A record failed when the broker reported an error or an error code. */
  predicate ResultFailed(r: ProduceResult) {
    r.err.Some? || r.errorCode.Some?
  }
}
