/** The v3 record stream (internal/api/v3.go, handleV3RecordStream). Every run is a list of decode
    attempts; an attempt carries what the network, the rate limiter and the producer did. */
module V3Stream {
  import opened Base
  import opened Records
  import opened RequestLimits
  import opened V3Records
  import opened Decimal
  import Compaction

  // ---------------------------------------------------------------------------------------
  // Inputs and outputs

  datatype Target = Target(clusterId: string, topic: string)

  datatype DecodeOutcome = Eof | TooLarge | Malformed(message: string) | Decoded

  /** What Produce can return instead of results. */
  datatype ProduceError = OverloadedError | ContextEnded(message: string) | OtherError(message: string)

  /** One trip round the loop. `chunks` are the sizes the body reader returned during this Decode,
      read-ahead included; the other fields are used only when the code gets that far. */
  datatype Arrival = Arrival(
    chunks: seq<nat>,
    decode: DecodeOutcome,
    allowed: bool,
    record: V3Record,
    produced: Result<seq<ProduceResult>, ProduceError>)

  /** The same with what the handler makes of the record. */
  datatype Attempt = Attempt(
    chunks: seq<nat>,
    decode: DecodeOutcome,
    allowed: bool,
    envelope: Result<Envelope, string>,
    produced: Result<seq<ProduceResult>, ProduceError>)

  /** How the handler turns a record into an envelope, or refuses it. */
  type Judge = V3Record -> Result<Envelope, string>

  function JudgeUnder(topic: string, limits: DecodeLimits): Judge {
    (record: V3Record) => EnvelopeOf(topic, "", record, limits)
  }

  function Attempted(judge: Judge, a: Arrival): Attempt {
    Attempt(a.chunks, a.decode, a.allowed, judge(a.record), a.produced)
  }

  function AllAttempted(judge: Judge, arrivals: seq<Arrival>): (attempts: seq<Attempt>)
    ensures |attempts| == |arrivals|
  {
    seq(|arrivals|, i requires 0 <= i < |arrivals| => Attempted(judge, arrivals[i]))
  }

  datatype Report =
    | ErrorReport(code: int, message: string)
    | Delivered(clusterId: string, topic: string, partition: int, offset: int, key: Metadata, value: Metadata)

  datatype ApiError = ApiError(status: int, code: int, message: string)

  /** Everything the handler did: WriteHeader calls, API errors, streamed reports, records given to
      Produce, byte costs offered to the limiter, and the values it leaves for the metrics. */
  datatype Outcome = Outcome(
    headers: seq<int>,
    apiErrors: seq<ApiError>,
    reports: seq<Report>,
    produced: seq<Record>,
    offered: seq<int>,
    status: int,
    bodyLen: int,
    recordCount: int)

  const RATE_LIMIT_MESSAGE: string := "Request rate limit exceeded: The rate limit of requests per second has been exceeded."

  /** classifyProduceError after the stream handler has mapped context errors. */
  function Classify(e: ProduceError): ApiError {
    match e
    case OverloadedError => ApiError(429, 429, "producer is overloaded")
    case ContextEnded(_) => ApiError(504, 504, "produce request timed out")
    case OtherError(message) => ApiError(503, 503, message)
  }

  const EMPTY_BODY: ApiError := ApiError(400, 400, "request body must include at least one record")

  const NO_RESULT: ProduceResult := ProduceResult(0, 0, None, Some(AsMessage("kafka produce returned no result")))

  function ClusterName(t: Target): string {
    if Compaction.TrimSpace(t.clusterId) == "" then "local" else t.clusterId
  }

  /** v3ResponseForResult */
  function ReportForResult(t: Target, e: Envelope, r: ProduceResult): Report {
    if ResultFailed(r) then ErrorReport(ResultErrorCode(r), Shown(ResultErrorMessage(r)))
    else Delivered(ClusterName(t), t.topic, r.partition, r.offset, e.key, e.value)
  }

  function TooManyMessage(got: int, limit: int): string {
    "too many records: got " + FormatInt(got) + ", limit " + FormatInt(limit)
  }

  // ---------------------------------------------------------------------------------------
  // What a run must look like

  /** The i-th decoded record lets the loop go on. */
  predicate Continues(a: Attempt, i: nat, maxRecords: int) {
    a.allowed && i < maxRecords && (a.envelope.Err? || a.produced.Ok?)
  }

  /** The report the i-th decoded record is owed. */
  function ReportFor(t: Target, a: Attempt, i: nat, maxRecords: int): Report {
    if !a.allowed then ErrorReport(429, RATE_LIMIT_MESSAGE)
    else if i >= maxRecords then ErrorReport(400, TooManyMessage(i + 1, maxRecords))
    else if a.envelope.Err? then ErrorReport(400, a.envelope.error)
    else if a.produced.Err? then ErrorReport(Classify(a.produced.error).code, Classify(a.produced.error).message)
    else ReportForResult(t, a.envelope.value, if a.produced.value == [] then NO_RESULT else a.produced.value[0])
  }

  /** The API error owed when the very first attempt ends the request. */
  function ErrorFor(a: Attempt): ApiError
    requires a.decode.Decoded? ==> !a.allowed || a.produced.Err?
  {
    match a.decode
    case Eof => EMPTY_BODY
    case TooLarge => ApiError(413, 413, "HTTP 413 Payload Too Large")
    case Malformed(message) => ApiError(400, 400, message)
    case Decoded => if !a.allowed then ApiError(429, 429, RATE_LIMIT_MESSAGE) else Classify(a.produced.error)
  }

  /** The extra report owed for a decode error after the first write. */
  function DecodeReport(d: DecodeOutcome): Report
    requires d.TooLarge? || d.Malformed?
  {
    if d.TooLarge? then ErrorReport(413, "HTTP 413 Payload Too Large") else ErrorReport(400, d.message)
  }

  function Sum(ns: seq<int>): int {
    if ns == [] then 0 else Sum(ns[..|ns| - 1]) + ns[|ns| - 1]
  }

  /** Bytes the counting reader has handed out after the first k attempts. */
  function BytesRead(attempts: seq<Attempt>, k: nat): int
    requires k <= |attempts|
    decreases k
  {
    if k == 0 then 0 else BytesRead(attempts, k - 1) + Sum(attempts[k - 1].chunks)
  }

  /** k is the number of records the handler decodes: every attempt before it decodes, all but the
      last go on, and then the last one stops the run or the next attempt yields no record. */
  ghost predicate Decodes(attempts: seq<Attempt>, maxRecords: int, k: nat) {
    && k <= |attempts|
    && (forall i :: 0 <= i < k ==> attempts[i].decode.Decoded?)
    && (forall i :: 0 <= i < k - 1 ==> Continues(attempts[i], i, maxRecords))
    && ((k > 0 && !Continues(attempts[k - 1], k - 1, maxRecords)) || k == |attempts| || !attempts[k].decode.Decoded?)
  }

  /** That number, counting on from record i. */
  function DecodedFrom(attempts: seq<Attempt>, maxRecords: int, i: nat): nat
    requires i <= |attempts|
    decreases |attempts| - i
  {
    if i == |attempts| || !attempts[i].decode.Decoded? then i
    else if !Continues(attempts[i], i, maxRecords) then i + 1
    else DecodedFrom(attempts, maxRecords, i + 1)
  }

  function DecodedCount(attempts: seq<Attempt>, maxRecords: int): nat {
    DecodedFrom(attempts, maxRecords, 0)
  }

  lemma {:induction false} DecodedFromDecodes(attempts: seq<Attempt>, maxRecords: int, i: nat)
    requires i <= |attempts|
    requires forall j :: 0 <= j < i ==> attempts[j].decode.Decoded? && Continues(attempts[j], j, maxRecords)
    ensures Decodes(attempts, maxRecords, DecodedFrom(attempts, maxRecords, i))
    decreases |attempts| - i
  {
    if i < |attempts| && attempts[i].decode.Decoded? && Continues(attempts[i], i, maxRecords) {
      DecodedFromDecodes(attempts, maxRecords, i + 1);
    }
  }

  /** Only that number fits. */
  lemma {:induction false} DecodesIffCount(attempts: seq<Attempt>, maxRecords: int, k: nat)
    ensures Decodes(attempts, maxRecords, k) <==> k == DecodedCount(attempts, maxRecords)
  {
    DecodedFromDecodes(attempts, maxRecords, 0);
  }

  // ---------------------------------------------------------------------------------------
  // The handler

  class CountingReader {
    var n: int

    constructor ()
      ensures n == 0
    {
      n := 0;
    }

    method Read(got: nat)
      modifies this
      ensures n == old(n) + got
    {
      n := n + got;
    }
  }

  /** The reads one Decode makes. */
  method Fill(counter: CountingReader, chunks: seq<nat>)
    modifies counter
    ensures counter.n == old(counter.n) + Sum(chunks)
  {
    for i := 0 to |chunks|
      invariant counter.n == old(counter.n) + Sum(chunks[..i])
    {
      assert chunks[..i + 1][..i] == chunks[..i];
      counter.Read(chunks[i]);
    }
    assert chunks[..|chunks|] == chunks;
  }

  /** The records that reach Produce, in order. */
  function Submitted(attempts: seq<Attempt>, k: nat, maxRecords: int): seq<Record>
    requires k <= |attempts|
    decreases k
  {
    if k == 0 then []
    else
      var a := attempts[k - 1];
      Submitted(attempts, k - 1, maxRecords)
        + (if a.allowed && k - 1 < maxRecords && a.envelope.Ok? then [a.envelope.value.record] else [])
  }

  lemma {:induction false} SubmittedBound(attempts: seq<Attempt>, k: nat, maxRecords: int)
    requires k <= |attempts| && maxRecords >= 0
    ensures |Submitted(attempts, k, maxRecords)| <= k
    ensures |Submitted(attempts, k, maxRecords)| <= maxRecords
  {
    if k > 0 {
      SubmittedBound(attempts, k - 1, maxRecords);
    }
  }

  /** The run ended on a body that would not decode, after everything before it had been answered. */
  predicate EndsInDecodeError(attempts: seq<Attempt>, maxRecords: int, k: nat) {
    && k < |attempts|
    && (attempts[k].decode.TooLarge? || attempts[k].decode.Malformed?)
    && (k > 0 ==> Continues(attempts[k - 1], k - 1, maxRecords))
  }

  /** Nothing was streamed: one API error, that of the attempt which ended the request. */
  ghost predicate Refused(attempts: seq<Attempt>, maxRecords: int, k: nat, out: Outcome)
    requires maxRecords >= 1
  {
    && k <= 1
    && (k == 1 ==> attempts != [] && attempts[0].decode.Decoded? && !Continues(attempts[0], 0, maxRecords))
    && (k == 0 && attempts != [] ==> !attempts[0].decode.Decoded?)
    && out.reports == []
    && out.apiErrors == [if attempts == [] then EMPTY_BODY
                         else ErrorFor(attempts[0])]
    && out.status == out.apiErrors[0].status
  }

  /** A 200 stream: one report per decoded record in input order, plus one for a decode error. */
  ghost predicate Streamed(t: Target, attempts: seq<Attempt>, maxRecords: int, k: nat, out: Outcome) {
    && 1 <= k <= |attempts|
    && out.apiErrors == []
    && out.status == 200
    && |out.reports| == (if EndsInDecodeError(attempts, maxRecords, k) then k + 1 else k)
    && (forall i :: 0 <= i < k ==> out.reports[i] == ReportFor(t, attempts[i], i, maxRecords))
    && (EndsInDecodeError(attempts, maxRecords, k) ==> out.reports[k] == DecodeReport(attempts[k].decode))
  }

  /** The costs offered to the limiter telescope to the bytes read, and never exceed the body. */
  ghost predicate Charged(attempts: seq<Attempt>, k: nat, out: Outcome) {
    && |out.offered| == k <= |attempts|
    && (forall j :: 0 <= j <= k ==> Sum(out.offered[..j]) == BytesRead(attempts, j))
    && Sum(out.offered) <= out.bodyLen
  }

  /** Everything the loop has established when it has answered i records and goes on. */
  ghost predicate Going(t: Target, attempts: seq<Attempt>, maxRecords: int, i: nat, wrote: bool, out: Outcome) {
    && i <= |attempts|
    && (forall j :: 0 <= j < i ==> attempts[j].decode.Decoded? && Continues(attempts[j], j, maxRecords))
    && (wrote <==> i > 0)
    && out.headers == (if wrote then [200] else [])
    && out.apiErrors == []
    && (wrote ==> out.status == 200)
    && |out.reports| == i
    && (forall j :: 0 <= j < i ==> out.reports[j] == ReportFor(t, attempts[j], j, maxRecords))
    && out.produced == Submitted(attempts, i, maxRecords)
    && out.recordCount == i
    && Charged(attempts, i, out)
    && out.bodyLen == BytesRead(attempts, i)
  }

  /** writeAPIError */
  function WithApiError(out: Outcome, e: ApiError): Outcome {
    out.(status := e.status, headers := out.headers + [e.status], apiErrors := out.apiErrors + [e])
  }

  /** writeRecordResponse */
  function WithReport(out: Outcome, wrote: bool, r: Report): Outcome {
    if wrote then out.(reports := out.reports + [r])
    else out.(status := 200, headers := out.headers + [200], reports := out.reports + [r])
  }

  /** Stop with this error: streamed if something was written before, an API error if not. */
  function Stopped(out: Outcome, wrote: bool, r: Report, e: ApiError): Outcome {
    if wrote then WithReport(out, wrote, r) else WithApiError(out, e)
  }

  /** The header is written exactly once, and the final status is the one that was written. */
  predicate HeaderOnce(out: Outcome) {
    out.headers == [out.status]
  }

  /** The bookkeeping of a finished run: what was decoded, produced, charged and counted. */
  ghost predicate Accounts(attempts: seq<Attempt>, maxRecords: int, k: nat, out: Outcome) {
    && Decodes(attempts, maxRecords, k)
    && out.produced == Submitted(attempts, k, maxRecords)
    && |out.produced| <= maxRecords
    && Charged(attempts, k, out)
    && out.bodyLen == BytesRead(attempts, Examined(attempts, maxRecords, k))
    && out.recordCount == (if k > 0 && !attempts[k - 1].allowed then k - 1 else k)
  }

  /** What every finished run satisfies; k is the number of records decoded. */
  ghost predicate Finished(t: Target, attempts: seq<Attempt>, maxRecords: int, k: nat, out: Outcome)
    requires maxRecords >= 1
  {
    && HeaderOnce(out)
    && Accounts(attempts, maxRecords, k, out)
    && (if NothingAnswered(attempts, maxRecords, k) then Refused(attempts, maxRecords, k, out)
        else Streamed(t, attempts, maxRecords, k, out))
  }

  /** The request ended before any record was answered in the stream. */
  predicate NothingAnswered(attempts: seq<Attempt>, maxRecords: int, k: nat) {
    k == 0 || (k == 1 && attempts != [] && !Continues(attempts[0], 0, maxRecords))
  }

  /** How many attempts were made: the one that yields no record counts too. */
  function Examined(attempts: seq<Attempt>, maxRecords: int, k: nat): (n: nat)
    requires k <= |attempts|
    ensures n <= |attempts|
  {
    if k == |attempts| || (k > 0 && !Continues(attempts[k - 1], k - 1, maxRecords)) then k else k + 1
  }

  lemma {:induction false} SumAppend(ns: seq<int>, n: int)
    ensures Sum(ns + [n]) == Sum(ns) + n
  {
    assert (ns + [n])[..|ns|] == ns;
  }

  /** Offering the bytes read since the last record keeps the account exact. */
  lemma {:induction false} ChargeNext(attempts: seq<Attempt>, i: nat, out: Outcome, next: Outcome)
    requires i < |attempts| && Charged(attempts, i, out) && out.bodyLen == BytesRead(attempts, i)
    requires next.bodyLen == BytesRead(attempts, i + 1)
    requires next.offered == out.offered + [next.bodyLen - out.bodyLen]
    ensures Charged(attempts, i + 1, next)
  {
    SumAppend(out.offered, next.bodyLen - out.bodyLen);
    assert out.offered[..i] == out.offered;
    forall j | 0 <= j <= i + 1
      ensures Sum(next.offered[..j]) == BytesRead(attempts, j)
    {
      if j <= i {
        assert next.offered[..j] == out.offered[..j];
      } else {
        assert next.offered[..j] == next.offered;
      }
    }
  }

  /** The record was answered: streamed if the loop goes on or something was streamed before, else
      refused with one API error; and Produce saw its record exactly when it got that far. */
  ghost predicate Answered(t: Target, a: Attempt, i: nat, maxRecords: int, out: Outcome, next: Outcome, stop: bool) {
    && (stop <==> !Continues(a, i, maxRecords))
    && (!stop || i > 0 ==>
          && next.reports == out.reports + [ReportFor(t, a, i, maxRecords)]
          && next.apiErrors == out.apiErrors
          && next.headers == (if i > 0 then out.headers else out.headers + [200])
          && next.status == (if i > 0 then out.status else 200))
    && (stop && i == 0 ==>
          && (a.allowed ==> a.produced.Err?)
          && next.reports == out.reports
          && next.apiErrors == out.apiErrors + [if !a.allowed then ApiError(429, 429, RATE_LIMIT_MESSAGE) else Classify(a.produced.error)]
          && next.headers == out.headers + [next.status]
          && next.status == next.apiErrors[|out.apiErrors|].status)
    && next.produced == out.produced + (if a.allowed && i < maxRecords && a.envelope.Ok? then [a.envelope.value.record] else [])
    && next.recordCount == (if a.allowed then i + 1 else i)
    && next.offered == out.offered
    && next.bodyLen == out.bodyLen
  }

  /** The body of the loop after a successful decode; `out` already has its bytes and its cost. */
  method AnswerRecord(t: Target, a: Attempt, maxRecords: int, wrote: bool, out: Outcome, ghost i: nat)
    returns (next: Outcome, stop: bool)
    requires maxRecords >= 1 && out.recordCount == i && (wrote <==> i > 0)
    ensures Answered(t, a, i, maxRecords, out, next, stop)
  {
    if !a.allowed {
      return Stopped(out, wrote, ErrorReport(429, RATE_LIMIT_MESSAGE), ApiError(429, 429, RATE_LIMIT_MESSAGE)), true;
    }
    next := out.(recordCount := out.recordCount + 1);
    if next.recordCount > maxRecords {
      // maxRecords >= 1, so an earlier record has been answered: the un-streamed branch is dead.
      assert wrote;
      var message := TooManyMessage(next.recordCount, maxRecords);
      return Stopped(next, wrote, ErrorReport(400, message), ApiError(400, 400, message)), true;
    }
    if a.envelope.Err? {
      return WithReport(next, wrote, ErrorReport(400, a.envelope.error)), false;
    }
    next := next.(produced := next.produced + [a.envelope.value.record]);
    if a.produced.Err? {
      var e := Classify(a.produced.error);
      return Stopped(next, wrote, ErrorReport(e.code, e.message), e), true;
    }
    var result := if |a.produced.value| == 0 then NO_RESULT else a.produced.value[0];
    return WithReport(next, wrote, ReportForResult(t, a.envelope.value, result)), false;
  }

  /** `mid` is the state after decoding attempt i and offering its cost. */
  ghost predicate Offered(attempts: seq<Attempt>, i: nat, was: Outcome, mid: Outcome) {
    && i < |attempts|
    && mid.bodyLen == BytesRead(attempts, i + 1)
    && mid == was.(bodyLen := mid.bodyLen, offered := was.offered + [mid.bodyLen - was.bodyLen])
  }

  lemma {:induction false} GoesOn(t: Target, attempts: seq<Attempt>, maxRecords: int, i: nat, was: Outcome, mid: Outcome, next: Outcome)
    requires maxRecords >= 1 && Going(t, attempts, maxRecords, i, i > 0, was) && Offered(attempts, i, was, mid)
    requires attempts[i].decode.Decoded? && Answered(t, attempts[i], i, maxRecords, mid, next, false)
    requires Charged(attempts, i + 1, mid)
    ensures Going(t, attempts, maxRecords, i + 1, true, next)
  {
    SameCharges(attempts, i + 1, mid, next);
  }

  lemma {:induction false} SameCharges(attempts: seq<Attempt>, k: nat, out: Outcome, next: Outcome)
    requires Charged(attempts, k, out) && next.offered == out.offered && next.bodyLen == out.bodyLen
    ensures Charged(attempts, k, next)
  {
  }

  lemma {:induction false} FirstStopRefuses(t: Target, attempts: seq<Attempt>, maxRecords: int, was: Outcome, mid: Outcome, next: Outcome)
    requires maxRecords >= 1 && Going(t, attempts, maxRecords, 0, false, was) && Offered(attempts, 0, was, mid)
    requires attempts[0].decode.Decoded? && Answered(t, attempts[0], 0, maxRecords, mid, next, true)
    ensures HeaderOnce(next) && Refused(attempts, maxRecords, 1, next)
  {
  }

  lemma {:induction false} LaterStopStreams(t: Target, attempts: seq<Attempt>, maxRecords: int, i: nat, was: Outcome, mid: Outcome, next: Outcome)
    requires maxRecords >= 1 && i > 0 && Going(t, attempts, maxRecords, i, true, was) && Offered(attempts, i, was, mid)
    requires attempts[i].decode.Decoded? && Answered(t, attempts[i], i, maxRecords, mid, next, true)
    ensures HeaderOnce(next) && Streamed(t, attempts, maxRecords, i + 1, next)
  {
  }

  lemma {:induction false} StopAccounts(t: Target, attempts: seq<Attempt>, maxRecords: int, i: nat, mid: Outcome, next: Outcome)
    requires maxRecords >= 1 && i < |attempts| && attempts[i].decode.Decoded?
    requires forall j :: 0 <= j < i ==> attempts[j].decode.Decoded? && Continues(attempts[j], j, maxRecords)
    requires mid.produced == Submitted(attempts, i, maxRecords) && mid.recordCount == i
    requires mid.bodyLen == BytesRead(attempts, i + 1) && Charged(attempts, i + 1, mid)
    requires Answered(t, attempts[i], i, maxRecords, mid, next, true)
    ensures Accounts(attempts, maxRecords, i + 1, next)
  {
    SubmittedBound(attempts, i + 1, maxRecords);
  }

  /** When the loop ends without a new record, the bookkeeping of the last one stands. */
  lemma {:induction false} EndAccounts(t: Target, attempts: seq<Attempt>, maxRecords: int, i: nat, was: Outcome, bodyLen: int, out: Outcome)
    requires maxRecords >= 1 && Going(t, attempts, maxRecords, i, i > 0, was) && was.bodyLen <= bodyLen
    requires i == |attempts| || !attempts[i].decode.Decoded?
    requires bodyLen == BytesRead(attempts, if i == |attempts| then i else i + 1)
    requires out.produced == was.produced && out.offered == was.offered && out.recordCount == was.recordCount && out.bodyLen == bodyLen
    ensures Accounts(attempts, maxRecords, i, out)
  {
    SubmittedBound(attempts, i, maxRecords);
    EndIsCount(attempts, maxRecords, i);
    assert Charged(attempts, i, out);
  }

  /** Where every record so far went on and no other follows, i is the number decoded. */
  lemma {:induction false} EndIsCount(attempts: seq<Attempt>, maxRecords: int, i: nat)
    requires i <= |attempts| && (i == |attempts| || !attempts[i].decode.Decoded?)
    requires forall j :: 0 <= j < i ==> attempts[j].decode.Decoded? && Continues(attempts[j], j, maxRecords)
    ensures Decodes(attempts, maxRecords, i)
    ensures Examined(attempts, maxRecords, i) == if i == |attempts| then i else i + 1
  {
  }

  /** The first attempt ends the request. */
  lemma {:induction false} FirstEndRefuses(t: Target, attempts: seq<Attempt>, maxRecords: int, was: Outcome, bodyLen: int, out: Outcome)
    requires maxRecords >= 1 && Going(t, attempts, maxRecords, 0, false, was)
    requires attempts == [] || !attempts[0].decode.Decoded?
    requires out == WithApiError(was.(bodyLen := bodyLen), if attempts == [] then EMPTY_BODY else ErrorFor(attempts[0]))
    ensures HeaderOnce(out) && Refused(attempts, maxRecords, 0, out)
  {
  }

  /** A later one ends the stream, with an extra report only for a decode error. */
  lemma {:induction false} LaterEndStreams(t: Target, attempts: seq<Attempt>, maxRecords: int, i: nat, was: Outcome, bodyLen: int, out: Outcome)
    requires maxRecords >= 1 && i > 0 && Going(t, attempts, maxRecords, i, true, was)
    requires i == |attempts| || !attempts[i].decode.Decoded?
    requires
      var mid := was.(bodyLen := bodyLen);
      out == if i == |attempts| || attempts[i].decode.Eof? then mid else WithReport(mid, true, DecodeReport(attempts[i].decode))
    ensures HeaderOnce(out) && Streamed(t, attempts, maxRecords, i, out)
  {
  }

  /** The body ends: a stream if anything was decoded, else the empty-body error. */
  lemma {:induction false} EofFinishes(t: Target, attempts: seq<Attempt>, maxRecords: int, i: nat, was: Outcome, bodyLen: int, out: Outcome)
    requires maxRecords >= 1 && Going(t, attempts, maxRecords, i, i > 0, was) && was.bodyLen <= bodyLen
    requires i == |attempts| || attempts[i].decode.Eof?
    requires bodyLen == BytesRead(attempts, if i == |attempts| then i else i + 1)
    requires
      var mid := was.(bodyLen := bodyLen);
      out == if i == 0 then WithApiError(mid, EMPTY_BODY) else mid
    ensures Finished(t, attempts, maxRecords, i, out)
  {
    EndAccounts(t, attempts, maxRecords, i, was, bodyLen, out);
    if i == 0 {
      FirstEndRefuses(t, attempts, maxRecords, was, bodyLen, out);
    } else {
      LaterEndStreams(t, attempts, maxRecords, i, was, bodyLen, out);
    }
  }

  lemma {:induction false} DecodeErrorFinishes(t: Target, attempts: seq<Attempt>, maxRecords: int, i: nat, was: Outcome, bodyLen: int, out: Outcome)
    requires maxRecords >= 1 && Going(t, attempts, maxRecords, i, i > 0, was) && was.bodyLen <= bodyLen
    requires i < |attempts| && (attempts[i].decode.TooLarge? || attempts[i].decode.Malformed?)
    requires bodyLen == BytesRead(attempts, i + 1)
    requires out == Stopped(was.(bodyLen := bodyLen), i > 0, DecodeReport(attempts[i].decode), ErrorFor(attempts[i]))
    ensures Finished(t, attempts, maxRecords, i, out)
  {
    EndAccounts(t, attempts, maxRecords, i, was, bodyLen, out);
    if i == 0 {
      FirstEndRefuses(t, attempts, maxRecords, was, bodyLen, out);
    } else {
      LaterEndStreams(t, attempts, maxRecords, i, was, bodyLen, out);
    }
  }

  /** The decoder yields a record: it is charged for the bytes read since the last one, and answered. */
  method TakeRecord(t: Target, a: Attempt, ghost attempts: seq<Attempt>, maxRecords: int, i: nat, counter: CountingReader, was: Outcome)
    returns (out: Outcome, done: bool)
    requires maxRecords >= 1 && i < |attempts| && a == attempts[i] && a.decode.Decoded?
    requires Going(t, attempts, maxRecords, i, i > 0, was) && counter.n == BytesRead(attempts, i)
    modifies counter
    ensures counter.n == BytesRead(attempts, i + 1)
    ensures done ==> Finished(t, attempts, maxRecords, i + 1, out)
    ensures !done ==> Going(t, attempts, maxRecords, i + 1, true, out)
  {
    var beforeRead := counter.n;
    Fill(counter, a.chunks);
    var mid := was.(bodyLen := counter.n, offered := was.offered + [counter.n - beforeRead]);
    ChargeNext(attempts, i, was, mid);
    out, done := AnswerRecord(t, a, maxRecords, i > 0, mid, i);
    if !done {
      GoesOn(t, attempts, maxRecords, i, was, mid, out);
    } else {
      StopAccounts(t, attempts, maxRecords, i, mid, out);
      if i == 0 {
        FirstStopRefuses(t, attempts, maxRecords, was, mid, out);
      } else {
        LaterStopStreams(t, attempts, maxRecords, i, was, mid, out);
      }
    }
  }

  /** The decoder yields no record: the body has ended, or would not decode. */
  method TakeEnd(t: Target, a: Attempt, ghost attempts: seq<Attempt>, maxRecords: int, i: nat, counter: CountingReader, was: Outcome)
    returns (out: Outcome)
    requires maxRecords >= 1 && i < |attempts| && a == attempts[i] && !a.decode.Decoded?
    requires Going(t, attempts, maxRecords, i, i > 0, was) && counter.n == BytesRead(attempts, i)
    modifies counter
    ensures counter.n == BytesRead(attempts, i + 1)
    ensures Finished(t, attempts, maxRecords, i, out)
  {
    Fill(counter, a.chunks);
    SumOfNats(a.chunks);
    if a.decode.Eof? {
      out := FinishBody(t, attempts, maxRecords, i, was, counter.n);
    } else {
      out := Stopped(was.(bodyLen := counter.n), i > 0, DecodeReport(a.decode), ErrorFor(a));
      DecodeErrorFinishes(t, attempts, maxRecords, i, was, counter.n, out);
    }
  }

  /** What follows the loop: an empty body is an error, anything else has been answered. */
  method FinishBody(t: Target, ghost attempts: seq<Attempt>, ghost maxRecords: int, ghost i: nat, was: Outcome, bodyLen: int) returns (out: Outcome)
    requires maxRecords >= 1 && Going(t, attempts, maxRecords, i, i > 0, was) && was.bodyLen <= bodyLen
    requires i == |attempts| || attempts[i].decode.Eof?
    requires bodyLen == BytesRead(attempts, if i == |attempts| then i else i + 1)
    ensures Finished(t, attempts, maxRecords, i, out)
  {
    out := was.(bodyLen := bodyLen);
    if out.recordCount == 0 {
      out := WithApiError(out, EMPTY_BODY);
    }
    EofFinishes(t, attempts, maxRecords, i, was, bodyLen, out);
  }

  /** The loop, for whatever turns records into envelopes. */
  method RunStream(t: Target, arrivals: seq<Arrival>, judge: Judge, maxRecords: int) returns (out: Outcome)
    requires maxRecords >= 1
    ensures exists k: nat :: Finished(t, AllAttempted(judge, arrivals), maxRecords, k, out)
  {
    ghost var attempts := AllAttempted(judge, arrivals);
    out := Outcome([], [], [], [], [], 200, 0, 0);
    var counter := new CountingReader();
    for i := 0 to |arrivals|
      invariant fresh(counter) && counter.n == BytesRead(attempts, i)
      invariant Going(t, attempts, maxRecords, i, i > 0, out)
    {
      var a := Attempted(judge, arrivals[i]);
      if !a.decode.Decoded? {
        out := TakeEnd(t, a, attempts, maxRecords, i, counter, out);
        return;
      }
      var done;
      out, done := TakeRecord(t, a, attempts, maxRecords, i, counter, out);
      if done {
        return;
      }
    }
    out := FinishBody(t, attempts, maxRecords, |arrivals|, out, out.bodyLen);
  }

  /** handleV3RecordStream, for a handler with these settings; the limits in force are positive. */
  method HandleRecordStream(t: Target, arrivals: seq<Arrival>, configured: DecodeLimits) returns (out: Outcome)
    ensures
      var limits := WithDefaults(configured);
      var attempts := AllAttempted(JudgeUnder(t.topic, limits), arrivals);
      && Finished(t, attempts, limits.maxRecords, DecodedCount(attempts, limits.maxRecords), out)
      && ProducedAreOwn(out.produced, t.topic, limits, arrivals,
                        Reaching(attempts, DecodedCount(attempts, limits.maxRecords), limits.maxRecords))
  {
    var limits := WithDefaults(configured);
    out := RunStream(t, arrivals, JudgeUnder(t.topic, limits), limits.maxRecords);
    ghost var k: nat :| Finished(t, AllAttempted(JudgeUnder(t.topic, limits), arrivals), limits.maxRecords, k, out);
    JudgeUnderIsTrue(t.topic, limits);
    DecodesIffCount(AllAttempted(JudgeUnder(t.topic, limits), arrivals), limits.maxRecords, k);
    AccountedAreOwn(JudgeUnder(t.topic, limits), t.topic, limits, arrivals, k);
  }

  /** The arrivals that reach Produce among the first k: decoded, allowed, not too many, acceptable. */
  function Reaching(attempts: seq<Attempt>, k: nat, maxRecords: int): (s: seq<nat>)
    requires k <= |attempts|
    ensures forall p :: 0 <= p < |s| ==>
              s[p] < k && attempts[s[p]].allowed && s[p] < maxRecords && attempts[s[p]].envelope.Ok?
    ensures forall p, p' :: 0 <= p < p' < |s| ==> s[p] < s[p']
    decreases k
  {
    if k == 0 then []
    else if attempts[k - 1].allowed && k - 1 < maxRecords && attempts[k - 1].envelope.Ok? then
      Reaching(attempts, k - 1, maxRecords) + [k - 1]
    else Reaching(attempts, k - 1, maxRecords)
  }

  /** None that should reach Produce is missing. */
  lemma {:induction false} ReachingIsAll(attempts: seq<Attempt>, k: nat, maxRecords: int, i: nat)
    requires i < k <= |attempts| && attempts[i].allowed && i < maxRecords && attempts[i].envelope.Ok?
    ensures i in Reaching(attempts, k, maxRecords)
  {
    if i < k - 1 {
      ReachingIsAll(attempts, k - 1, maxRecords, i);
    }
  }

  /** Produce gets exactly their envelopes' records, in order. */
  lemma {:induction false} SubmittedAreReaching(attempts: seq<Attempt>, k: nat, maxRecords: int)
    requires k <= |attempts|
    ensures |Submitted(attempts, k, maxRecords)| == |Reaching(attempts, k, maxRecords)|
    ensures forall p :: 0 <= p < |Submitted(attempts, k, maxRecords)| ==>
              Submitted(attempts, k, maxRecords)[p] == attempts[Reaching(attempts, k, maxRecords)[p]].envelope.value.record
  {
    if k > 0 {
      SubmittedAreReaching(attempts, k - 1, maxRecords);
      var before := Submitted(attempts, k - 1, maxRecords);
      assert before + [] == before;
    }
  }

  /** What this judge accepts is the record itself, for this topic, within every limit. */
  ghost predicate JudgesTruly(judge: Judge, topic: string, limits: DecodeLimits) {
    forall record: V3Record :: judge(record).Ok? ==> IsOwn(judge(record).value, topic, limits, record)
  }

  predicate IsOwn(e: Envelope, topic: string, limits: DecodeLimits, record: V3Record) {
    && IsRecord(e.record, topic, record) && WithinLimits(e.record, limits)
    && IsMetadata(record.key, e.key) && IsMetadata(record.value, e.value)
  }

  lemma {:induction false} JudgeUnderIsTrue(topic: string, limits: DecodeLimits)
    ensures JudgesTruly(JudgeUnder(topic, limits), topic, limits)
  {
    forall record: V3Record | JudgeUnder(topic, limits)(record).Ok?
      ensures IsOwn(JudgeUnder(topic, limits)(record).value, topic, limits, record)
    {
      EnvelopeIffAcceptable(topic, "", record, limits);
      EnvelopeIsItsRecord(topic, "", record, limits);
    }
  }

  /** Record p that Produce got is field by field that of the p-th arrival to reach it, for the path's
      topic and within every limit. */
  ghost predicate ProducedAreOwn(produced: seq<Record>, topic: string, limits: DecodeLimits, arrivals: seq<Arrival>, reaching: seq<nat>) {
    && |produced| == |reaching|
    && forall p :: 0 <= p < |reaching| ==>
         && reaching[p] < |arrivals|
         && IsRecord(produced[p], topic, arrivals[reaching[p]].record)
         && WithinLimits(produced[p], limits)
  }

  lemma {:induction false} AccountedAreOwn(judge: Judge, topic: string, limits: DecodeLimits, arrivals: seq<Arrival>, k: nat)
    requires k <= |arrivals| && JudgesTruly(judge, topic, limits)
    ensures
      var attempts := AllAttempted(judge, arrivals);
      ProducedAreOwn(Submitted(attempts, k, limits.maxRecords), topic, limits, arrivals, Reaching(attempts, k, limits.maxRecords))
  {
    var attempts := AllAttempted(judge, arrivals);
    var reaching := Reaching(attempts, k, limits.maxRecords);
    SubmittedAreReaching(attempts, k, limits.maxRecords);
    forall p | 0 <= p < |reaching|
      ensures IsOwn(attempts[reaching[p]].envelope.value, topic, limits, arrivals[reaching[p]].record)
    {
      assert attempts[reaching[p]] == Attempted(judge, arrivals[reaching[p]]);
      assert judge(arrivals[reaching[p]].record).Ok?;
    }
  }

  // ---------------------------------------------------------------------------------------
  // Codes and texts, from the inputs alone

  /** What a failed produce call is answered with: overload 429, a timeout 504, anything else 503. */
  predicate IsProduceError(e: ProduceError, status: int, message: string) {
    match e
    case OverloadedError => status == 429 && message == "producer is overloaded"
    case ContextEnded(_) => status == 504 && message == "produce request timed out"
    case OtherError(why) => status == 503 && message == why
  }

  /** A delivery report: the record's place and metadata, or its error code and text. */
  ghost predicate IsResultReport(rep: Report, t: Target, e: Envelope, r: ProduceResult) {
    if r.err.Some? || r.errorCode.Some? then
      && rep.ErrorReport?
      && rep.code == (if r.errorCode.Some? then r.errorCode.value else 50002)
      && rep.message == (if r.err.Some? then Shown(r.err.value) else "Kafka produce failed")
    else
      && rep.Delivered?
      && rep.topic == t.topic && rep.partition == r.partition && rep.offset == r.offset
      && rep.key == e.key && rep.value == e.value
      && rep.clusterId == (if Compaction.TrimSpace(t.clusterId) == "" then "local" else t.clusterId)
  }

  lemma {:induction false} ResultIsReported(t: Target, e: Envelope, r: ProduceResult)
    ensures IsResultReport(ReportForResult(t, e, r), t, e, r)
  {
    FailureIsReported(r);
  }

  lemma {:induction false} ProduceErrorIsReported(e: ProduceError)
    ensures IsProduceError(e, Classify(e).status, Classify(e).message) && Classify(e).code == Classify(e).status
  {
  }

  /** The report the i-th decoded record of a stream is owed, check by check. */
  ghost predicate IsOwed(rep: Report, t: Target, a: Attempt, i: nat, maxRecords: int) {
    if !a.allowed then rep == ErrorReport(429, RATE_LIMIT_MESSAGE)
    else if i >= maxRecords then
      rep.ErrorReport? && rep.code == 400 && rep.message == "too many records: got " + FormatInt(i + 1) + ", limit " + FormatInt(maxRecords)
    else if a.envelope.Err? then rep.ErrorReport? && rep.code == 400 && rep.message == a.envelope.error
    else if a.produced.Err? then rep.ErrorReport? && IsProduceError(a.produced.error, rep.code, rep.message)
    else if a.produced.value == [] then
      rep.ErrorReport? && rep.code == 50002 && rep.message == "kafka produce returned no result"
    else IsResultReport(rep, t, a.envelope.value, a.produced.value[0])
  }

  lemma {:induction false} NoResultIsReported(t: Target, e: Envelope)
    ensures
      var rep := ReportForResult(t, e, NO_RESULT);
      rep.ErrorReport? && rep.code == 50002 && rep.message == "kafka produce returned no result"
  {
    var text := "kafka produce returned no result";
    assert Shown(AsMessage(text)) == text;
  }

  /** Every streamed report is the one its record is owed. */
  lemma {:induction false} ReportIsOwed(t: Target, a: Attempt, i: nat, maxRecords: int)
    ensures IsOwed(ReportFor(t, a, i, maxRecords), t, a, i, maxRecords)
  {
    if a.envelope.Ok? && a.produced.Err? {
      ProduceErrorIsReported(a.produced.error);
    } else if a.envelope.Ok? && a.produced.value == [] {
      NoResultIsReported(t, a.envelope.value);
    } else if a.envelope.Ok? {
      ResultIsReported(t, a.envelope.value, a.produced.value[0]);
    }
  }

  /** What the status line of a stream is, from its first attempt alone. */
  function StatusOf(attempts: seq<Attempt>): int {
    if attempts == [] then 400
    else
      var a := attempts[0];
      match a.decode
      case Eof => 400
      case TooLarge => 413
      case Malformed(_) => 400
      case Decoded =>
        if !a.allowed then 429
        else if a.envelope.Err? || a.produced.Ok? then 200
        else if a.produced.error.OverloadedError? then 429
        else if a.produced.error.ContextEnded? then 504
        else 503
  }

  /** The one API error of a refused stream says what its first attempt did. */
  ghost predicate IsRefusalOf(e: ApiError, attempts: seq<Attempt>) {
    if attempts == [] then e.message == "request body must include at least one record"
    else
      var a := attempts[0];
      match a.decode
      case Eof => e.message == "request body must include at least one record"
      case TooLarge => e.message == "HTTP 413 Payload Too Large"
      case Malformed(why) => e.message == why
      case Decoded =>
        if !a.allowed then e.message == RATE_LIMIT_MESSAGE
        else a.produced.Err? && IsProduceError(a.produced.error, e.status, e.message)
  }

  /** In every run: the status; one API error with that status and code exactly when it is not 200; the
      reports owed; and a last report 413 or 400 when the body stops decoding after the first write. */
  lemma {:induction false} StreamIsAnswered(t: Target, attempts: seq<Attempt>, maxRecords: int, k: nat, out: Outcome)
    requires maxRecords >= 1 && Finished(t, attempts, maxRecords, k, out)
    ensures out.status == StatusOf(attempts)
    ensures out.apiErrors == [] <==> StatusOf(attempts) == 200
    ensures |out.apiErrors| <= 1 && (out.apiErrors != [] ==> out.apiErrors[0].code == out.apiErrors[0].status == out.status)
    ensures out.apiErrors != [] ==> IsRefusalOf(out.apiErrors[0], attempts)
    ensures out.status == 200 ==> k <= |out.reports| <= k + 1 && forall i :: 0 <= i < k ==> IsOwed(out.reports[i], t, attempts[i], i, maxRecords)
    ensures out.status == 200 && |out.reports| == k + 1 ==>
      && k < |attempts| && out.reports[k].ErrorReport?
      && (attempts[k].decode.TooLarge? ==> out.reports[k].code == 413)
      && (attempts[k].decode.Malformed? ==> out.reports[k].code == 400 && out.reports[k].message == attempts[k].decode.message)
      && (attempts[k].decode.TooLarge? || attempts[k].decode.Malformed?)
    ensures out.status != 200 ==> out.reports == []
  {
    forall i | 0 <= i < k
      ensures IsOwed(ReportFor(t, attempts[i], i, maxRecords), t, attempts[i], i, maxRecords)
    {
      ReportIsOwed(t, attempts[i], i, maxRecords);
    }
    if attempts != [] && attempts[0].produced.Err? {
      ProduceErrorIsReported(attempts[0].produced.error);
    }
  }

  /** The limiter refused the i-th decoded record, or it is one too many, or producing it failed. */
  predicate EndsStream(a: Attempt, i: nat, maxRecords: int) {
    !a.allowed || i >= maxRecords || (a.envelope.Ok? && a.produced.Err?)
  }

  /** Where every run stops: at the first record that ends the stream, or else at the first attempt that
      yields no record; only a body that stops decoding gets a report of its own. */
  lemma {:induction false} StreamEndsExactly(t: Target, attempts: seq<Attempt>, maxRecords: int, k: nat, out: Outcome)
    requires maxRecords >= 1 && Finished(t, attempts, maxRecords, k, out)
    ensures k <= |attempts|
    ensures forall i :: 0 <= i < k ==> attempts[i].decode.Decoded? && (i < k - 1 ==> !EndsStream(attempts[i], i, maxRecords))
    ensures
      var ended := k > 0 && EndsStream(attempts[k - 1], k - 1, maxRecords);
      var broken := k < |attempts| && (attempts[k].decode.TooLarge? || attempts[k].decode.Malformed?);
      && (ended || k == |attempts| || attempts[k].decode.Eof? || broken)
      && (out.status == 200 ==> |out.reports| == if broken && !ended then k + 1 else k)
      && out.recordCount == (if k > 0 && !attempts[k - 1].allowed then k - 1 else k)
  {
    assert forall i :: 0 <= i < |attempts| ==> (EndsStream(attempts[i], i, maxRecords) <==> !Continues(attempts[i], i, maxRecords));
  }

  /** The attempt gets as far as a produce call that the context ends. */
  predicate EndsInTimeout(a: Attempt) {
    a.decode.Decoded? && a.allowed && a.envelope.Ok? && a.produced.Err? && a.produced.error.ContextEnded?
  }

  /** The stream answers 504 exactly when the very first record's produce call times out. */
  lemma {:induction false} StreamTimesOutIff(t: Target, attempts: seq<Attempt>, maxRecords: int, out: Outcome)
    requires maxRecords >= 1 && Finished(t, attempts, maxRecords, DecodedCount(attempts, maxRecords), out)
    ensures out.status == 504 <==> attempts != [] && EndsInTimeout(attempts[0])
    ensures out.status == 504 ==> out.reports == [] && out.apiErrors == [ApiError(504, 504, "produce request timed out")]
  {
    DecodesIffCount(attempts, maxRecords, DecodedCount(attempts, maxRecords));
  }

  lemma {:induction false} SumOfNats(ns: seq<nat>)
    ensures Sum(ns) >= 0
  {
    if ns != [] {
      SumOfNats(ns[..|ns| - 1]);
    }
  }
}
