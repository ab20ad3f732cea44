/** The soak client (cmd/soak-produce/main.go) against the server's own count of successes and failures
    (internal/api/types.go, countResultStatus). */
module Soak {
  import opened Base
  import opened Records
  import opened Json
  import opened Decimal
  import opened ProduceResponse
  import opened ResponseReader

  // ---------------------------------------------------------------------------------------
  // The server's count

  /** How many results carry an error or an error code. */
  function FailedCount(results: seq<ProduceResult>): nat {
    if results == [] then 0
    else FailedCount(results[..|results| - 1]) + (if results[|results| - 1].err.Some? || results[|results| - 1].errorCode.Some? then 1 else 0)
  }

  method CountResultStatus(results: seq<ProduceResult>) returns (successes: nat, failures: nat)
    ensures failures == FailedCount(results)
    ensures successes + failures == |results|
  {
    successes, failures := 0, 0;
    for i := 0 to |results|
      invariant failures == FailedCount(results[..i])
      invariant successes + failures == i
    {
      assert results[..i + 1][..i] == results[..i];
      if ResultFailed(results[i]) {
        failures := failures + 1;
      } else {
        successes := successes + 1;
      }
    }
    assert results[..|results|] == results;
  }

  // ---------------------------------------------------------------------------------------
  // The client's count

  /** The two fields the client looks at. */
  datatype ClientOffset = ClientOffset(errorCode: Option<int>, error: Option<string>)

  function ReadClientOffset(t: Tree): Option<ClientOffset> {
    if t == NULL || (t.Empty? && t.isObject) then Some(ClientOffset(None, None))
    else if !(t.Group? && t.isObject) then None
    else
      var code := ReadInt(Find(t.items, "error_code"));
      var error := ReadText(Find(t.items, "error"));
      if code.None? || error.None? then None else Some(ClientOffset(code.value, error.value))
  }

  function ReadClientOffsets(i: Items): Option<seq<ClientOffset>> {
    var first := ReadClientOffset(i.item);
    var rest := if i.One? then Some([]) else ReadClientOffsets(i.rest);
    if first.None? || rest.None? then None else Some([first.value] + rest.value)
  }

  /** json.Unmarshal into the client's struct: unknown members are ignored, a missing list is empty. */
  function ReadClientResponse(body: string): Option<seq<ClientOffset>> {
    var d := Parse(body);
    if d.None? then None
    else if d.value.tree == NULL || (d.value.tree.Empty? && d.value.tree.isObject) then Some([])
    else if !(d.value.tree.Group? && d.value.tree.isObject) then None
    else
      var offsets := Find(d.value.tree.items, "offsets");
      if offsets.None? || offsets.value == NULL || (offsets.value.Empty? && !offsets.value.isObject) then Some([])
      else if offsets.value.Group? && !offsets.value.isObject then ReadClientOffsets(offsets.value.items)
      else None
  }

  predicate OffsetFailed(o: ClientOffset) {
    o.errorCode.Some? || (o.error.Some? && o.error.value != "")
  }

  /** recordFailureReason */
  function FailureReason(o: ClientOffset): (reason: string)
    ensures reason != ""
  {
    if o.errorCode.Some? then "record_error_code_" + FormatInt(o.errorCode.value)
    else if o.error.Some? && o.error.value != "" then "record_error"
    else "record_error_unknown"
  }

  datatype CountError = DecodeError | LengthMismatch

  datatype Counts = Counts(success: nat, failed: nat, reason: string)

  /** How many entries carry an error code, or a text that is not empty. */
  function FailedOffsets(offsets: seq<ClientOffset>): nat {
    if offsets == [] then 0
    else
      var last := offsets[|offsets| - 1];
      FailedOffsets(offsets[..|offsets| - 1])
        + (if last.errorCode.Some? || (last.error.Some? && |last.error.value| > 0) then 1 else 0)
  }

  /** The entry carries neither a code nor a text. */
  predicate IsClean(o: ClientOffset) {
    o.errorCode.None? && (o.error.None? || o.error.value == "")
  }

  /** The reason names the first failed record's code, or its text when there is no code; it is empty
      when no record failed. */
  ghost predicate FirstReason(offsets: seq<ClientOffset>, reason: string) {
    if reason == "" then forall i :: 0 <= i < |offsets| ==> IsClean(offsets[i])
    else exists i :: 0 <= i < |offsets| && FirstFailure(offsets, i) && Names(reason, offsets[i])
  }

  predicate Names(reason: string, o: ClientOffset) {
    reason == if o.errorCode.Some? then "record_error_code_" + FormatInt(o.errorCode.value) else "record_error"
  }

  ghost predicate FirstFailure(offsets: seq<ClientOffset>, i: nat)
    requires i < |offsets|
  {
    !IsClean(offsets[i]) && forall j :: 0 <= j < i ==> IsClean(offsets[j])
  }

  method CountOffsets(offsets: seq<ClientOffset>) returns (c: Counts)
    ensures c.failed == FailedOffsets(offsets) && c.success + c.failed == |offsets|
    ensures FirstReason(offsets, c.reason) && (c.failed > 0 <==> c.reason != "")
  {
    var success, failed, reason := 0, 0, "";
    ghost var first := 0;
    for i := 0 to |offsets|
      invariant failed == FailedOffsets(offsets[..i]) && success + failed == i
      invariant failed > 0 <==> reason != ""
      invariant reason == "" ==> forall j :: 0 <= j < i ==> IsClean(offsets[j])
      invariant reason != "" ==> 0 <= first < i && FirstFailure(offsets, first) && Names(reason, offsets[first])
    {
      assert offsets[..i + 1][..i] == offsets[..i];
      if OffsetFailed(offsets[i]) {
        failed := failed + 1;
        if reason == "" {
          reason := FailureReason(offsets[i]);
          first := i;
        }
      } else {
        success := success + 1;
      }
    }
    assert offsets[..|offsets|] == offsets;
    c := Counts(success, failed, reason);
  }

  /** countRecordResults: the client trusts a response only if it decodes and has one entry per record. */
  method CountRecordResults(body: string, expected: nat) returns (r: Result<Counts, CountError>)
    ensures r == Err(DecodeError) <==> ReadClientResponse(body).None?
    ensures r == Err(LengthMismatch) <==> ReadClientResponse(body).Some? && |ReadClientResponse(body).value| != expected
    ensures r.Ok? ==>
      && r.value.failed == FailedOffsets(ReadClientResponse(body).value)
      && r.value.success + r.value.failed == expected
      && FirstReason(ReadClientResponse(body).value, r.value.reason)
      && (r.value.failed > 0 <==> r.value.reason != "")
  {
    var decoded := ReadClientResponse(body);
    if decoded.None? {
      return Err(DecodeError);
    }
    if |decoded.value| != expected {
      return Err(LengthMismatch);
    }
    var counts := CountOffsets(decoded.value);
    return Ok(counts);
  }

  // ---------------------------------------------------------------------------------------
  // They agree

  /** What the client sees of one result. */
  function Seen(r: ProduceResult): ClientOffset {
    ClientOffset(Reported(r).errorCode, Reported(r).error)
  }

  function SeenAll(results: seq<ProduceResult>): seq<ClientOffset> {
    seq(|results|, i requires 0 <= i < |results| => Seen(results[i]))
  }

  lemma {:induction false} ReadClientResult(table: char -> bool, r: ProduceResult)
    requires TextSafe(table, r)
    ensures ReadClientOffset(ResultTree(table, r)) == Some(Seen(r))
  {
    ReadResult(table, r);
  }

  lemma {:induction false} ReadClientArray(trees: seq<Tree>, offsets: seq<ClientOffset>)
    requires trees != [] && |trees| == |offsets|
    requires forall i :: 0 <= i < |trees| ==> ReadClientOffset(trees[i]) == Some(offsets[i])
    ensures ReadClientOffsets(ArrayItems(trees)) == Some(offsets)
  {
    if |trees| == 1 {
      assert [offsets[0]] + [] == offsets;
    } else {
      ReadClientArray(trees[1..], offsets[1..]);
      assert [offsets[0]] + offsets[1..] == offsets;
    }
  }

  lemma {:induction false} SameFailures(results: seq<ProduceResult>)
    ensures FailedOffsets(SeenAll(results)) == FailedCount(results)
  {
    if results != [] {
      var n := |results| - 1;
      SameFailures(results[..n]);
      assert SeenAll(results)[..n] == SeenAll(results[..n]);
    }
  }

  lemma {:induction false} ReadClientResults(table: char -> bool, results: seq<ProduceResult>)
    requires results != [] && TextsSafe(table, results)
    ensures ReadClientOffsets(ArrayItems(ResultTrees(table, results))) == Some(SeenAll(results))
  {
    forall i | 0 <= i < |results|
      ensures ReadClientOffset(ResultTrees(table, results)[i]) == Some(SeenAll(results)[i])
    {
      ReadClientResult(table, results[i]);
    }
    ReadClientArray(ResultTrees(table, results), SeenAll(results));
  }

  /** A response that parses is read entry by entry. */
  lemma {:induction false} ReadSafeResponse(table: char -> bool, results: seq<ProduceResult>, meta: Meta)
    requires TextsSafe(table, results)
    ensures ReadClientResponse(ResponseBytes(table, results, meta)) == Some(SeenAll(results))
  {
    ResponseParsesIffSafe(table, results, meta);
    KeysDiffer();
    FindInThree("offsets", "key_schema_id", "value_schema_id", OffsetsTree(table, results),
                NullableIntTree(meta.keySchemaId), NullableIntTree(meta.valueSchemaId));
    if results == [] {
      assert SeenAll(results) == [];
    } else {
      ReadClientResults(table, results);
    }
  }

  /** The client reads a response exactly when its error texts are safe, and then sees one entry per
      record with the server's verdict on it. */
  lemma {:induction false} ClientReads(table: char -> bool, results: seq<ProduceResult>, meta: Meta)
    ensures ReadClientResponse(ResponseBytes(table, results, meta)) ==
            if TextsSafe(table, results) then Some(SeenAll(results)) else None
  {
    if TextsSafe(table, results) {
      ReadSafeResponse(table, results, meta);
    } else {
      ResponseParsesIffSafe(table, results, meta);
    }
  }

  /** Client and server count the same failures on every response the client can read. */
  lemma {:induction false} ClientAndServerAgree(table: char -> bool, results: seq<ProduceResult>, meta: Meta)
    ensures
      var seen := ReadClientResponse(ResponseBytes(table, results, meta));
      && (seen.Some? <==> TextsSafe(table, results))
      && (seen.Some? ==> |seen.value| == |results| && FailedOffsets(seen.value) == FailedCount(results))
  {
    ClientReads(table, results, meta);
    SameFailures(results);
  }

  // ---------------------------------------------------------------------------------------
  // One request, and a whole run

  datatype RequestResult = RequestResult(
    status: int,
    records: int,
    successRecords: int,
    failedRecords: int,
    bytes: int,
    latency: real,
    err: bool,
    reason: string)

  /** How the HTTP exchange went; the client errors carry the reason the classifier gives them. */
  datatype Exchange =
    | BuildError
    | ClientError(reason: string)
    | ReadError(status: int)
    | Response(status: int, body: string)

  /** What postOnce guarantees about each result it sends to the accumulator. */
  predicate Accounted(r: RequestResult, perRequest: nat) {
    && r.records == perRequest
    && 0 <= r.successRecords && 0 <= r.failedRecords
    && r.successRecords + r.failedRecords == r.records
    && (RequestFailed(r) ==> r.failedRecords > 0 && r.reason != "")
  }

  /** The test in runSoak. */
  predicate RequestFailed(r: RequestResult) {
    r.err || r.status < 200 || r.status >= 300 || r.failedRecords > 0
  }

  /** A 2xx response with one readable entry per record sent; any other exchange fails them all. */
  predicate Countable(exchange: Exchange, perRequest: nat) {
    && exchange.Response? && 200 <= exchange.status < 300
    && ReadClientResponse(exchange.body).Some?
    && |ReadClientResponse(exchange.body).value| == perRequest
  }

  /** The exchange broke down, or a 2xx answer does not read as one entry per record. */
  predicate FailsToAnswer(exchange: Exchange, perRequest: nat) {
    !exchange.Response? || (200 <= exchange.status < 300 && !Countable(exchange, perRequest))
  }

  /** The reason each kind of exchange is filed under. */
  ghost predicate HasReasonOf(exchange: Exchange, perRequest: nat, reason: string) {
    match exchange
    case BuildError => reason == "request_build_error"
    case ClientError(why) => reason == why
    case ReadError(_) => reason == "response_read_error"
    case Response(status, body) =>
      if status < 200 || status >= 300 then reason == "http_status_" + FormatInt(status)
      else if ReadClientResponse(body).None? then reason == "response_decode_error"
      else if |ReadClientResponse(body).value| != perRequest then reason == "response_offsets_length_mismatch"
      else FirstReason(ReadClientResponse(body).value, reason)
  }

  method PostOnce(exchange: Exchange, perRequest: nat, bytes: nat, latency: real) returns (r: RequestResult)
    requires perRequest > 0
    requires exchange.ClientError? ==> exchange.reason != ""
    ensures Accounted(r, perRequest) && r.bytes == bytes && r.latency == latency
    ensures r.status == if exchange.ReadError? || exchange.Response? then exchange.status else 0
    ensures r.err <==> FailsToAnswer(exchange, perRequest)
    ensures HasReasonOf(exchange, perRequest, r.reason)
    ensures r.failedRecords == if Countable(exchange, perRequest) then FailedOffsets(ReadClientResponse(exchange.body).value) else perRequest
    ensures !RequestFailed(r) <==>
      Countable(exchange, perRequest) && FailedOffsets(ReadClientResponse(exchange.body).value) == 0
  {
    match exchange
    case BuildError => r := RequestResult(0, perRequest, 0, perRequest, bytes, latency, true, "request_build_error");
    case ClientError(reason) => r := RequestResult(0, perRequest, 0, perRequest, bytes, latency, true, reason);
    case ReadError(status) => r := RequestResult(status, perRequest, 0, perRequest, bytes, latency, true, "response_read_error");
    case Response(status, body) =>
      if status < 200 || status >= 300 {
        r := RequestResult(status, perRequest, 0, perRequest, bytes, latency, false, "http_status_" + FormatInt(status));
      } else {
        var counted := CountRecordResults(body, perRequest);
        match counted
        case Err(DecodeError) =>
          r := RequestResult(status, perRequest, 0, perRequest, bytes, latency, true, "response_decode_error");
        case Err(LengthMismatch) =>
          r := RequestResult(status, perRequest, 0, perRequest, bytes, latency, true, "response_offsets_length_mismatch");
        case Ok(c) =>
          r := RequestResult(status, perRequest, c.success, c.failed, bytes, latency, false, c.reason);
      }
  }

  /** The totals runSoak keeps; the reason counters are a multiset. */
  datatype Totals = Totals(
    requests: nat,
    successRequests: nat,
    failedRequests: nat,
    attempted: int,
    succeeded: int,
    failed: int,
    bytes: int,
    reasons: multiset<string>,
    latencies: seq<real>)

  /** The books are balanced: every record is a success or a failure, every failed request has one
      reason and between one and `perRequest` failed records. */
  predicate Balanced(t: Totals, perRequest: nat) {
    && t.requests == t.successRequests + t.failedRequests
    && t.attempted == t.succeeded + t.failed
    && t.attempted == Times(t.requests, perRequest)
    && |t.reasons| == t.failedRequests
    && t.failedRequests <= t.failed <= Times(t.failedRequests, perRequest)
  }

  /** n times k, by repeated addition. */
  function Times(n: nat, k: nat): nat {
    if n == 0 then 0 else Times(n - 1, k) + k
  }

  lemma {:induction false} TimesIsProduct(n: nat, k: nat)
    ensures Times(n, k) == n * k
  {
    if n > 0 {
      TimesIsProduct(n - 1, k);
    }
  }

  /** Attempted records are requests times records per request, and the failed requests lie between
      failed records divided by records per request and failed records. */
  lemma {:induction false} BalancedBounds(t: Totals, perRequest: nat)
    requires Balanced(t, perRequest) && perRequest > 0
    ensures t.attempted == t.requests * perRequest
    ensures t.failed <= t.failedRequests * perRequest && t.failedRequests <= t.failed
  {
    TimesIsProduct(t.requests, perRequest);
    TimesIsProduct(t.failedRequests, perRequest);
  }

  /** The sum of a measure over the results. */
  function SumOf(results: seq<RequestResult>, f: RequestResult -> int): int {
    if results == [] then 0 else SumOf(results[..|results| - 1], f) + f(results[|results| - 1])
  }

  function Attempted(r: RequestResult): int { r.records }
  function Succeeded(r: RequestResult): int { r.successRecords }
  function Failed(r: RequestResult): int { r.failedRecords }
  function Sent(r: RequestResult): int { r.bytes }
  function CountsAsFailed(r: RequestResult): int { if RequestFailed(r) then 1 else 0 }

  /** What a failed request is filed under. */
  function ReasonOf(r: RequestResult): string {
    if r.reason == "" then "unknown_failure" else r.reason
  }

  /** The reasons of the failed requests. */
  function Reasons(results: seq<RequestResult>): multiset<string> {
    if results == [] then multiset{}
    else
      var last := results[|results| - 1];
      Reasons(results[..|results| - 1]) + (if RequestFailed(last) then multiset{ReasonOf(last)} else multiset{})
  }

  /** The latency samples are the first ones, in order, up to the cap. */
  predicate FirstSamples(results: seq<RequestResult>, maxLatencySamples: nat, latencies: seq<real>) {
    && |latencies| == (if |results| < maxLatencySamples then |results| else maxLatencySamples)
    && forall i :: 0 <= i < |latencies| ==> latencies[i] == results[i].latency
  }

  /** Every counter is the sum it stands for. */
  ghost predicate Tallies(t: Totals, results: seq<RequestResult>, maxLatencySamples: nat) {
    && t.requests == |results|
    && t.failedRequests == SumOf(results, CountsAsFailed)
    && t.successRequests + t.failedRequests == t.requests
    && t.attempted == SumOf(results, Attempted)
    && t.succeeded == SumOf(results, Succeeded)
    && t.failed == SumOf(results, Failed)
    && t.bytes == SumOf(results, Sent)
    && t.reasons == Reasons(results)
    && FirstSamples(results, maxLatencySamples, t.latencies)
  }

  /** One more result adds its own share to every sum. */
  lemma {:induction false} SumsStep(results: seq<RequestResult>, i: nat, f: RequestResult -> int)
    requires i < |results|
    ensures SumOf(results[..i + 1], f) == SumOf(results[..i], f) + f(results[i])
  {
    assert results[..i + 1][..i] == results[..i];
  }

  lemma {:induction false} ReasonsStep(results: seq<RequestResult>, i: nat)
    requires i < |results|
    ensures Reasons(results[..i + 1])
            == Reasons(results[..i]) + (if RequestFailed(results[i]) then multiset{ReasonOf(results[i])} else multiset{})
  {
    assert results[..i + 1][..i] == results[..i];
  }

  lemma {:induction false} CountUp(m: multiset<string>, x: string)
    ensures m[x := m[x] + 1] == m + multiset{x}
  {
  }

  lemma {:induction false} TalliesStep(results: seq<RequestResult>, i: nat, maxLatencySamples: nat, t: Totals, next: Totals)
    requires i < |results| && Tallies(t, results[..i], maxLatencySamples)
    requires
      var r := results[i];
      var failed := RequestFailed(r);
      && next.requests == t.requests + 1
      && next.failedRequests == t.failedRequests + (if failed then 1 else 0)
      && next.successRequests == t.successRequests + (if failed then 0 else 1)
      && next.attempted == t.attempted + r.records && next.succeeded == t.succeeded + r.successRecords
      && next.failed == t.failed + r.failedRecords && next.bytes == t.bytes + r.bytes
      && next.reasons == t.reasons + (if failed then multiset{ReasonOf(r)} else multiset{})
      && next.latencies == (if |t.latencies| < maxLatencySamples then t.latencies + [r.latency] else t.latencies)
    ensures Tallies(next, results[..i + 1], maxLatencySamples)
  {
    SumsStep(results, i, CountsAsFailed);
    SumsStep(results, i, Attempted);
    SumsStep(results, i, Succeeded);
    SumsStep(results, i, Failed);
    SumsStep(results, i, Sent);
    ReasonsStep(results, i);
  }

  /** The accumulation loop of runSoak over whatever the clients sent, in whatever order. */
  method RunSoak(results: seq<RequestResult>, maxLatencySamples: nat) returns (t: Totals)
    ensures Tallies(t, results, maxLatencySamples)
    ensures forall perRequest: nat :: AllAccounted(results, perRequest) ==> Balanced(t, perRequest)
  {
    t := Totals(0, 0, 0, 0, 0, 0, 0, multiset{}, []);
    for i := 0 to |results|
      invariant Tallies(t, results[..i], maxLatencySamples)
    {
      ghost var before := t;
      var res := results[i];
      t := t.(requests := t.requests + 1,
              attempted := t.attempted + res.records,
              succeeded := t.succeeded + res.successRecords,
              failed := t.failed + res.failedRecords,
              bytes := t.bytes + res.bytes);
      if res.err || res.status < 200 || res.status >= 300 || res.failedRecords > 0 {
        var reason := res.reason;
        if reason == "" {
          reason := "unknown_failure";
        }
        CountUp(t.reasons, reason);
        t := t.(failedRequests := t.failedRequests + 1, reasons := t.reasons[reason := t.reasons[reason] + 1]);
      } else {
        t := t.(successRequests := t.successRequests + 1);
      }
      if |t.latencies| < maxLatencySamples {
        t := t.(latencies := t.latencies + [res.latency]);
      }
      TalliesStep(results, i, maxLatencySamples, before, t);
    }
    assert results[..|results|] == results;
    forall perRequest: nat | AllAccounted(results, perRequest)
      ensures Balanced(t, perRequest)
    {
      SumsBalance(results, perRequest);
    }
  }

  /** Every result is one that postOnce can send. */
  predicate AllAccounted(results: seq<RequestResult>, perRequest: nat) {
    forall i :: 0 <= i < |results| ==> Accounted(results[i], perRequest)
  }

  /** The sums over results that come from postOnce fit together. */
  lemma {:induction false} SumsBalance(results: seq<RequestResult>, perRequest: nat)
    requires AllAccounted(results, perRequest)
    ensures SumOf(results, CountsAsFailed) >= 0
    ensures SumOf(results, Attempted) == SumOf(results, Succeeded) + SumOf(results, Failed) == Times(|results|, perRequest)
    ensures SumOf(results, CountsAsFailed) <= SumOf(results, Failed) <= Times(SumOf(results, CountsAsFailed), perRequest)
    ensures |Reasons(results)| == SumOf(results, CountsAsFailed)
  {
    if results != [] {
      SumsBalance(results[..|results| - 1], perRequest);
    }
  }

  /** When every request has the same body, the bytes sent are its size times the requests. */
  lemma {:induction false} SizesAddUp(results: seq<RequestResult>, size: nat)
    requires forall i :: 0 <= i < |results| ==> results[i].bytes == size
    ensures SumOf(results, Sent) == |results| * size
  {
    if results != [] {
      SizesAddUp(results[..|results| - 1], size);
    }
  }

  /** Whatever the results: an error, a status that is not 2xx or a failed record files the request under
      its reason, or under "unknown_failure" when it has none. */
  lemma {:induction false} EveryFailureIsFiled(results: seq<RequestResult>, i: nat)
    requires i < |results|
    requires results[i].err || !(200 <= results[i].status < 300) || results[i].failedRecords > 0
    ensures (if results[i].reason == "" then "unknown_failure" else results[i].reason) in Reasons(results)
  {
    if i < |results| - 1 {
      EveryFailureIsFiled(results[..|results| - 1], i);
    }
  }

  /** No request from postOnce is ever filed under "unknown_failure" for want of a reason. */
  lemma {:induction false} ReasonsAreReported(results: seq<RequestResult>, perRequest: nat, i: nat)
    requires AllAccounted(results, perRequest) && i < |results| && RequestFailed(results[i])
    ensures results[i].reason in Reasons(results)
  {
    EveryFailureIsFiled(results, i);
  }
}
