/** The v3 batch endpoint (internal/api/v3.go, handleV3BatchBody and validateBatchID): every entry of an
    accepted batch is accounted for exactly once, as a success or as a failure. Ids are byte strings. */
module V3Batch {
  import opened Base
  import opened Records
  import opened RequestLimits
  import opened V3Records
  import opened V3Stream
  import opened Decimal
  import Compaction

  datatype Entry = Entry(id: string, record: V3Record)

  datatype BatchSuccess = BatchSuccess(id: string, report: Report)

  datatype BatchFailure = BatchFailure(id: string, code: int, message: string)

  datatype BatchOutcome =
    | Refusal(error: ApiError)
    | MultiStatus(successes: seq<BatchSuccess>, failures: seq<BatchFailure>)

  // ---------------------------------------------------------------------------------------
  // Which entries are accepted

  const MAX_ID_BYTES: int := 80

  predicate IdWellFormed(id: string) {
    id != "" && |id| <= MAX_ID_BYTES
  }

  /** An earlier entry has the same id. */
  predicate IsRepeat(entries: seq<Entry>, i: nat)
    requires i < |entries|
  {
    exists j :: 0 <= j < i && entries[j].id == entries[i].id
  }

  /** What the first loop decides about entry i: the checks of validateBatchID, then those on the record. */
  function Verdict(topic: string, entries: seq<Entry>, l: DecodeLimits, i: nat): Result<Envelope, string>
    requires i < |entries|
  {
    var e := entries[i];
    if e.id == "" then Err("id is required")
    else if |e.id| > MAX_ID_BYTES then Err("id exceeds 80 characters")
    else if IsRepeat(entries, i) then Err("duplicate id")
    else EnvelopeOf(topic, e.id, e.record, l)
  }

  function Verdicts(topic: string, entries: seq<Entry>, l: DecodeLimits): (vs: seq<Result<Envelope, string>>)
    ensures |vs| == |entries|
  {
    seq(|entries|, i requires 0 <= i < |entries| => Verdict(topic, entries, l, i))
  }

  /** An entry is sent to Kafka exactly when its id is well formed and new and its record is
      acceptable; it goes under its own id, with its own partition, within every limit. */
  lemma {:induction false} AcceptedIffSound(topic: string, entries: seq<Entry>, l: DecodeLimits, i: nat)
    requires i < |entries|
    ensures Verdict(topic, entries, l, i).Ok?
            <==> 1 <= |entries[i].id| <= 80 && (forall j :: 0 <= j < i ==> entries[j].id != entries[i].id)
                 && Acceptable(topic, entries[i].record, l)
    ensures Verdict(topic, entries, l, i).Ok? ==>
      && Verdict(topic, entries, l, i).value == EnvelopeFor(topic, entries[i].id, entries[i].record)
      && WithinLimits(RecordOf(topic, entries[i].record), l)
  {
    EnvelopeIffAcceptable(topic, entries[i].id, entries[i].record, l);
  }

  /** All the accounting needs to know about the verdicts: an accepted entry keeps its id, and no
      two accepted entries share one. */
  ghost predicate Judged(entries: seq<Entry>, vs: seq<Result<Envelope, string>>) {
    && |vs| == |entries|
    && (forall i :: 0 <= i < |vs| && vs[i].Ok? ==> vs[i].value.id == entries[i].id)
    && (forall i, j :: 0 <= i < j < |vs| && vs[i].Ok? && vs[j].Ok? ==> entries[i].id != entries[j].id)
  }

  lemma {:induction false} VerdictsAreJudged(topic: string, entries: seq<Entry>, l: DecodeLimits)
    ensures Judged(entries, Verdicts(topic, entries, l))
  {
    var vs := Verdicts(topic, entries, l);
    forall i | 0 <= i < |vs| && vs[i].Ok?
      ensures vs[i].value.id == entries[i].id && !IsRepeat(entries, i)
    {
      AcceptedIffSound(topic, entries, l, i);
    }
  }

  /** Positions of the accepted entries among the first n, in order. */
  function AcceptedIndices(vs: seq<Result<Envelope, string>>, n: nat): (s: seq<nat>)
    requires n <= |vs|
    ensures forall p :: 0 <= p < |s| ==> s[p] < n && vs[s[p]].Ok?
    ensures forall p, q :: 0 <= p < q < |s| ==> s[p] < s[q]
  {
    if n == 0 then []
    else if vs[n - 1].Ok? then AcceptedIndices(vs, n - 1) + [n - 1]
    else AcceptedIndices(vs, n - 1)
  }

  function Envelopes(vs: seq<Result<Envelope, string>>, n: nat): (es: seq<Envelope>)
    requires n <= |vs|
    ensures |es| == |AcceptedIndices(vs, n)|
    ensures forall p :: 0 <= p < |es| ==> es[p] == vs[AcceptedIndices(vs, n)[p]].value
  {
    if n == 0 then []
    else if vs[n - 1].Ok? then Envelopes(vs, n - 1) + [vs[n - 1].value]
    else Envelopes(vs, n - 1)
  }

  /** The rejected entries among the first n, in order. */
  function Rejections(entries: seq<Entry>, vs: seq<Result<Envelope, string>>, n: nat): seq<BatchFailure>
    requires n <= |vs| && n <= |entries|
  {
    if n == 0 then []
    else if vs[n - 1].Ok? then Rejections(entries, vs, n - 1)
    else Rejections(entries, vs, n - 1) + [BatchFailure(entries[n - 1].id, 400, vs[n - 1].error)]
  }

  // ---------------------------------------------------------------------------------------
  // The handler

  /** validateBatchID: remembers every well-formed id it has not seen. */
  method ValidateBatchID(id: string, seen: set<string>) returns (err: Option<string>, now: set<string>)
    ensures err.None? <==> IdWellFormed(id) && id !in seen
    ensures now == if IdWellFormed(id) then seen + {id} else seen
    ensures err.Some? ==> err.value == (if id == "" then "id is required"
                                         else if |id| > MAX_ID_BYTES then "id exceeds 80 characters" else "duplicate id")
  {
    if id == "" {
      return Some("id is required"), seen;
    }
    if |id| > MAX_ID_BYTES {
      return Some("id exceeds 80 characters"), seen;
    }
    if id in seen {
      return Some("duplicate id"), seen;
    }
    return None, seen + {id};
  }

  /** `seen` holds exactly the well-formed ids of the first n entries. */
  ghost predicate HasSeen(entries: seq<Entry>, n: nat, seen: set<string>)
    requires n <= |entries|
  {
    forall id :: id in seen <==> IdWellFormed(id) && exists j :: 0 <= j < n && entries[j].id == id
  }

  /** One entry of the first loop. */
  method JudgeEntry(topic: string, entries: seq<Entry>, l: DecodeLimits, i: nat, seen: set<string>)
    returns (v: Result<Envelope, string>, now: set<string>)
    requires i < |entries|
    requires HasSeen(entries, i, seen)
    ensures v == Verdict(topic, entries, l, i)
    ensures HasSeen(entries, i + 1, now)
  {
    var entry := entries[i];
    var err;
    err, now := ValidateBatchID(entry.id, seen);
    if err.Some? {
      return Err(err.value), now;
    }
    v := EnvelopeOf(topic, entry.id, entry.record, l);
  }

  /** The first loop: sort the entries into envelopes and rejections. */
  method SortEntries(topic: string, entries: seq<Entry>, l: DecodeLimits) returns (envelopes: seq<Envelope>, failures: seq<BatchFailure>)
    ensures envelopes == Envelopes(Verdicts(topic, entries, l), |entries|)
    ensures failures == Rejections(entries, Verdicts(topic, entries, l), |entries|)
  {
    ghost var vs := Verdicts(topic, entries, l);
    envelopes, failures := [], [];
    var seen: set<string> := {};
    for i := 0 to |entries|
      invariant HasSeen(entries, i, seen)
      invariant envelopes == Envelopes(vs, i)
      invariant failures == Rejections(entries, vs, i)
    {
      var v;
      v, seen := JudgeEntry(topic, entries, l, i, seen);
      assert v == vs[i];
      if v.Err? {
        failures := failures + [BatchFailure(entries[i].id, 400, v.error)];
      } else {
        envelopes := envelopes + [v.value];
      }
    }
  }

  function KafkaFailure(e: Envelope, r: ProduceResult): BatchFailure {
    BatchFailure(e.id, ResultErrorCode(r), Shown(ResultErrorMessage(r)))
  }

  /** v3BatchSuccessForResult */
  function SuccessFor(t: Target, e: Envelope, r: ProduceResult): BatchSuccess {
    BatchSuccess(e.id, ReportForResult(t, e, r))
  }

  predicate ResultDelivered(r: ProduceResult) {
    !ResultFailed(r)
  }

  function Filing(t: Target): (Envelope, ProduceResult) -> BatchSuccess {
    (e: Envelope, r: ProduceResult) => SuccessFor(t, e, r)
  }

  /** What is made of those among the first n results that are kept, in order, each with its own
      envelope. */
  function Collect<T>(keep: ProduceResult -> bool, make: (Envelope, ProduceResult) -> T,
                      envelopes: seq<Envelope>, results: seq<ProduceResult>, n: nat): seq<T>
    requires n <= |envelopes| && n <= |results|
  {
    if n == 0 then []
    else if keep(results[n - 1]) then
      Collect(keep, make, envelopes, results, n - 1) + [make(envelopes[n - 1], results[n - 1])]
    else Collect(keep, make, envelopes, results, n - 1)
  }

  function KafkaFailures(envelopes: seq<Envelope>, results: seq<ProduceResult>, n: nat): seq<BatchFailure>
    requires n <= |envelopes| && n <= |results|
  {
    Collect(ResultFailed, KafkaFailure, envelopes, results, n)
  }

  function Successes(t: Target, envelopes: seq<Envelope>, results: seq<ProduceResult>, n: nat): seq<BatchSuccess>
    requires n <= |envelopes| && n <= |results|
  {
    Collect(ResultDelivered, Filing(t), envelopes, results, n)
  }

  /** The second loop: file each result under its own envelope; the indexing is in bounds. */
  method SortResults(t: Target, envelopes: seq<Envelope>, results: seq<ProduceResult>, rejected: seq<BatchFailure>)
    returns (successes: seq<BatchSuccess>, failures: seq<BatchFailure>)
    requires |results| == |envelopes|
    ensures successes == Successes(t, envelopes, results, |results|)
    ensures failures == rejected + KafkaFailures(envelopes, results, |results|)
  {
    successes, failures := [], rejected;
    for i := 0 to |results|
      invariant successes == Successes(t, envelopes, results, i)
      invariant failures == rejected + KafkaFailures(envelopes, results, i)
    {
      if ResultFailed(results[i]) {
        failures := failures + [KafkaFailure(envelopes[i], results[i])];
      } else {
        successes := successes + [SuccessFor(t, envelopes[i], results[i])];
      }
    }
  }

  /** classifyProduceError as the batch path calls it: context errors are not mapped first. */
  function ClassifyUnmapped(e: ProduceError): ApiError {
    match e
    case OverloadedError => ApiError(429, 429, "producer is overloaded")
    case ContextEnded(message) => ApiError(503, 503, message)
    case OtherError(message) => ApiError(503, 503, message)
  }

  function RecordsOf(envelopes: seq<Envelope>): seq<Record> {
    seq(|envelopes|, i requires 0 <= i < |envelopes| => envelopes[i].record)
  }

  function TooManyEntriesMessage(got: int, limit: int): string {
    "too many entries: got " + FormatInt(got) + ", limit " + FormatInt(limit)
  }

  /** The answer owed to a non-empty batch within the size limit. Produce is not called when
      nothing was accepted, and its error refuses the whole batch. */
  ghost predicate Handled(t: Target, entries: seq<Entry>, vs: seq<Result<Envelope, string>>,
                          produce: seq<Record> -> Result<seq<ProduceResult>, ProduceError>, out: BatchOutcome)
    requires |vs| == |entries|
  {
    var envelopes := Envelopes(vs, |vs|);
    var rejected := Rejections(entries, vs, |vs|);
    var results := produce(RecordsOf(envelopes));
    if envelopes == [] then out == MultiStatus([], rejected)
    else if results.Err? then out == Refusal(ClassifyUnmapped(results.error))
    else
      && |results.value| == |envelopes|
      && out == MultiStatus(Successes(t, envelopes, results.value, |envelopes|),
                            rejected + KafkaFailures(envelopes, results.value, |envelopes|))
  }

  /** handleV3BatchBody after the body has been decoded. `produce` stands for Produce; its contract,
      one result per record, is ReturnedResultsAreOutcomes. */
  method HandleBatch(t: Target, entries: seq<Entry>, l: DecodeLimits,
                     produce: seq<Record> -> Result<seq<ProduceResult>, ProduceError>) returns (out: BatchOutcome)
    requires forall rs :: produce(rs).Ok? ==> |produce(rs).value| == |rs|
    ensures entries == [] ==> out == Refusal(ApiError(400, 400, "entries must not be empty"))
    ensures entries != [] && |entries| > l.maxRecords ==>
      out == Refusal(ApiError(400, 400, "too many entries: got " + FormatInt(|entries|) + ", limit " + FormatInt(l.maxRecords)))
    ensures 0 < |entries| <= l.maxRecords ==> Handled(t, entries, Verdicts(t.topic, entries, l), produce, out)
  {
    if |entries| == 0 {
      return Refusal(ApiError(400, 400, "entries must not be empty"));
    }
    if |entries| > l.maxRecords {
      return Refusal(ApiError(400, 400, TooManyEntriesMessage(|entries|, l.maxRecords)));
    }
    var envelopes, failures := SortEntries(t.topic, entries, l);
    var successes := [];
    if |envelopes| > 0 {
      var results := produce(RecordsOf(envelopes));
      if results.Err? {
        return Refusal(ClassifyUnmapped(results.error));
      }
      successes, failures := SortResults(t, envelopes, results.value, failures);
    }
    return MultiStatus(successes, failures);
  }

  // ---------------------------------------------------------------------------------------
  // Accounting

  function Ids(entries: seq<Entry>, n: nat): multiset<string>
    requires n <= |entries|
  {
    if n == 0 then multiset{} else Ids(entries, n - 1) + multiset{entries[n - 1].id}
  }

  function EnvelopeIds(envelopes: seq<Envelope>, n: nat): multiset<string>
    requires n <= |envelopes|
  {
    if n == 0 then multiset{} else EnvelopeIds(envelopes, n - 1) + multiset{envelopes[n - 1].id}
  }

  function FailureIds(failures: seq<BatchFailure>): multiset<string> {
    if failures == [] then multiset{}
    else FailureIds(failures[..|failures| - 1]) + multiset{failures[|failures| - 1].id}
  }

  function SuccessIds(successes: seq<BatchSuccess>): multiset<string> {
    if successes == [] then multiset{}
    else SuccessIds(successes[..|successes| - 1]) + multiset{successes[|successes| - 1].id}
  }

  lemma {:induction false} FailureIdsAppend(a: seq<BatchFailure>, b: seq<BatchFailure>)
    ensures FailureIds(a + b) == FailureIds(a) + FailureIds(b)
  {
    if b == [] {
      assert a + b == a;
    } else {
      var n := |b| - 1;
      assert (a + b)[..|a + b| - 1] == a + b[..n];
      FailureIdsAppend(a, b[..n]);
    }
  }

  lemma {:induction false} FailureIdsPush(a: seq<BatchFailure>, f: BatchFailure)
    ensures FailureIds(a + [f]) == FailureIds(a) + multiset{f.id}
  {
    assert (a + [f])[..|a|] == a;
  }

  lemma {:induction false} SuccessIdsPush(a: seq<BatchSuccess>, s: BatchSuccess)
    ensures SuccessIds(a + [s]) == SuccessIds(a) + multiset{s.id}
  {
    assert (a + [s])[..|a|] == a;
  }

  lemma {:induction false} EnvelopeIdsPush(envelopes: seq<Envelope>, e: Envelope, n: nat)
    requires n <= |envelopes|
    ensures EnvelopeIds(envelopes + [e], n) == EnvelopeIds(envelopes, n)
    ensures n == |envelopes| ==> EnvelopeIds(envelopes + [e], n + 1) == EnvelopeIds(envelopes, n) + multiset{e.id}
  {
    if n > 0 {
      EnvelopeIdsPush(envelopes, e, n - 1);
    }
  }

  /** One more id on either side of a split is one more id in the whole. */
  lemma {:induction false} OneMore(a: multiset<string>, b: multiset<string>, whole: multiset<string>, x: string)
    requires a + b == whole
    ensures (a + multiset{x}) + b == whole + multiset{x}
    ensures a + (b + multiset{x}) == whole + multiset{x}
  {
    assert (a + multiset{x}) + b == (a + b) + multiset{x};
    assert a + (b + multiset{x}) == (a + b) + multiset{x};
  }

  lemma {:induction false} Regroup(s: multiset<string>, r: multiset<string>, f: multiset<string>)
    ensures s + (r + f) == (s + f) + r
  {
  }

  /** The ids sorted so far, on either side. */
  function SortedIds(es: seq<Envelope>, fs: seq<BatchFailure>): multiset<string> {
    EnvelopeIds(es, |es|) + FailureIds(fs)
  }

  lemma {:induction false} PushEnvelope(es: seq<Envelope>, fs: seq<BatchFailure>, e: Envelope)
    ensures SortedIds(es + [e], fs) == SortedIds(es, fs) + multiset{e.id}
  {
    EnvelopeIdsPush(es, e, |es|);
    OneMore(EnvelopeIds(es, |es|), FailureIds(fs), SortedIds(es, fs), e.id);
  }

  lemma {:induction false} PushRejection(es: seq<Envelope>, fs: seq<BatchFailure>, f: BatchFailure)
    ensures SortedIds(es, fs + [f]) == SortedIds(es, fs) + multiset{f.id}
  {
    FailureIdsPush(fs, f);
    OneMore(EnvelopeIds(es, |es|), FailureIds(fs), SortedIds(es, fs), f.id);
  }

  /** The next entry goes to one side or the other. */
  lemma {:induction false} SortNext(entries: seq<Entry>, vs: seq<Result<Envelope, string>>, n: nat, ids: multiset<string>)
    requires 0 < n <= |vs| && n <= |entries| && (vs[n - 1].Ok? ==> vs[n - 1].value.id == entries[n - 1].id)
    requires SortedIds(Envelopes(vs, n - 1), Rejections(entries, vs, n - 1)) == ids
    ensures SortedIds(Envelopes(vs, n), Rejections(entries, vs, n)) == ids + multiset{entries[n - 1].id}
  {
    var es, fs := Envelopes(vs, n - 1), Rejections(entries, vs, n - 1);
    if vs[n - 1].Ok? {
      PushEnvelope(es, fs, vs[n - 1].value);
    } else {
      PushRejection(es, fs, BatchFailure(entries[n - 1].id, 400, vs[n - 1].error));
    }
  }

  /** Sorting loses no entry. */
  lemma {:induction false} SortConservesIds(entries: seq<Entry>, vs: seq<Result<Envelope, string>>, n: nat)
    requires Judged(entries, vs) && n <= |vs|
    ensures SortedIds(Envelopes(vs, n), Rejections(entries, vs, n)) == Ids(entries, n)
  {
    if n > 0 {
      SortConservesIds(entries, vs, n - 1);
      SortNext(entries, vs, n, Ids(entries, n - 1));
    }
  }

  /** The ids filed so far, on either side. */
  function FiledIds(ss: seq<BatchSuccess>, fs: seq<BatchFailure>): multiset<string> {
    SuccessIds(ss) + FailureIds(fs)
  }

  lemma {:induction false} PushSuccess(ss: seq<BatchSuccess>, fs: seq<BatchFailure>, s: BatchSuccess)
    ensures FiledIds(ss + [s], fs) == FiledIds(ss, fs) + multiset{s.id}
  {
    SuccessIdsPush(ss, s);
    OneMore(SuccessIds(ss), FailureIds(fs), FiledIds(ss, fs), s.id);
  }

  lemma {:induction false} PushFailure(ss: seq<BatchSuccess>, fs: seq<BatchFailure>, f: BatchFailure)
    ensures FiledIds(ss, fs + [f]) == FiledIds(ss, fs) + multiset{f.id}
  {
    FailureIdsPush(fs, f);
    OneMore(SuccessIds(ss), FailureIds(fs), FiledIds(ss, fs), f.id);
  }

  /** The next result is filed on one side or the other. */
  lemma {:induction false} FileNext(t: Target, envelopes: seq<Envelope>, results: seq<ProduceResult>, n: nat, ids: multiset<string>)
    requires 0 < n <= |envelopes| && n <= |results|
    requires FiledIds(Successes(t, envelopes, results, n - 1), KafkaFailures(envelopes, results, n - 1)) == ids
    ensures FiledIds(Successes(t, envelopes, results, n), KafkaFailures(envelopes, results, n)) == ids + multiset{envelopes[n - 1].id}
  {
    var e, r := envelopes[n - 1], results[n - 1];
    var ss, fs := Successes(t, envelopes, results, n - 1), KafkaFailures(envelopes, results, n - 1);
    if ResultFailed(r) {
      PushFailure(ss, fs, KafkaFailure(e, r));
    } else {
      PushSuccess(ss, fs, SuccessFor(t, e, r));
    }
  }

  /** Filing the results loses no envelope. */
  lemma {:induction false} ResultsConserveIds(t: Target, envelopes: seq<Envelope>, results: seq<ProduceResult>, n: nat)
    requires n <= |envelopes| && n <= |results|
    ensures FiledIds(Successes(t, envelopes, results, n), KafkaFailures(envelopes, results, n)) == EnvelopeIds(envelopes, n)
  {
    if n > 0 {
      ResultsConserveIds(t, envelopes, results, n - 1);
      FileNext(t, envelopes, results, n, EnvelopeIds(envelopes, n - 1));
    }
  }

  /** Whenever the batch is answered entry by entry (and the verdicts are those of `VerdictsAreJudged`),
      the multiset of ids over successes and failures is that of the entries: nothing is lost,
      duplicated or invented. */
  lemma {:induction false} EveryEntryIsAccounted(t: Target, entries: seq<Entry>, vs: seq<Result<Envelope, string>>,
                                                 produce: seq<Record> -> Result<seq<ProduceResult>, ProduceError>, out: BatchOutcome)
    requires Judged(entries, vs) && Handled(t, entries, vs, produce, out) && out.MultiStatus?
    ensures SuccessIds(out.successes) + FailureIds(out.failures) == Ids(entries, |entries|)
  {
    var envelopes := Envelopes(vs, |vs|);
    var rejected := Rejections(entries, vs, |vs|);
    SortConservesIds(entries, vs, |vs|);
    if envelopes != [] {
      var results := produce(RecordsOf(envelopes)).value;
      var ss, fs := Successes(t, envelopes, results, |envelopes|), KafkaFailures(envelopes, results, |envelopes|);
      ResultsConserveIds(t, envelopes, results, |envelopes|);
      FailureIdsAppend(rejected, fs);
      Regroup(SuccessIds(ss), FailureIds(rejected), FailureIds(fs));
    }
  }

  /** Positions of the delivered results among the first n. */
  function DeliveredIndices(results: seq<ProduceResult>, n: nat): (s: seq<nat>)
    requires n <= |results|
    ensures forall p :: 0 <= p < |s| ==> s[p] < n && results[s[p]].err.None? && results[s[p]].errorCode.None?
    ensures forall p, q :: 0 <= p < q < |s| ==> s[p] < s[q]
  {
    if n == 0 then []
    else if results[n - 1].err.Some? || results[n - 1].errorCode.Some? then DeliveredIndices(results, n - 1)
    else DeliveredIndices(results, n - 1) + [n - 1]
  }

  /** Positions of the kept results among the first n. */
  function Where(keep: ProduceResult -> bool, results: seq<ProduceResult>, n: nat): (s: seq<nat>)
    requires n <= |results|
    ensures forall p :: 0 <= p < |s| ==> s[p] < n && keep(results[s[p]])
  {
    if n == 0 then []
    else if keep(results[n - 1]) then Where(keep, results, n - 1) + [n - 1]
    else Where(keep, results, n - 1)
  }

  lemma {:induction false} CollectIsWhere<T>(keep: ProduceResult -> bool, make: (Envelope, ProduceResult) -> T,
                                             envelopes: seq<Envelope>, results: seq<ProduceResult>, n: nat)
    requires n <= |envelopes| && n <= |results|
    ensures |Collect(keep, make, envelopes, results, n)| == |Where(keep, results, n)|
    ensures forall p :: 0 <= p < |Where(keep, results, n)| ==>
              var k := Where(keep, results, n)[p];
              Collect(keep, make, envelopes, results, n)[p] == make(envelopes[k], results[k])
  {
    if n > 0 {
      CollectIsWhere(keep, make, envelopes, results, n - 1);
    }
  }

  lemma {:induction false} WhereDelivered(results: seq<ProduceResult>, n: nat)
    requires n <= |results|
    ensures Where(ResultDelivered, results, n) == DeliveredIndices(results, n)
    ensures Where(ResultFailed, results, n) == FailedIndices(results, n)
  {
    if n > 0 {
      WhereDelivered(results, n - 1);
    }
  }

  lemma {:induction false} SuccessesAreDelivered(t: Target, envelopes: seq<Envelope>, results: seq<ProduceResult>, n: nat)
    requires n <= |envelopes| && n <= |results|
    ensures |Successes(t, envelopes, results, n)| == |DeliveredIndices(results, n)|
    ensures forall p :: 0 <= p < |DeliveredIndices(results, n)| ==>
              var k := DeliveredIndices(results, n)[p];
              Successes(t, envelopes, results, n)[p] == SuccessFor(t, envelopes[k], results[k])
  {
    CollectIsWhere(ResultDelivered, Filing(t), envelopes, results, n);
    WhereDelivered(results, n);
  }

  /** Successes are in input order, each with its own entry's id and metadata, and their ids are
      pairwise distinct. */
  lemma {:induction false} SuccessesAreOrderedAndDistinct(t: Target, entries: seq<Entry>, vs: seq<Result<Envelope, string>>, results: seq<ProduceResult>)
    requires Judged(entries, vs) && |results| == |AcceptedIndices(vs, |vs|)|
    ensures
      var indices := AcceptedIndices(vs, |vs|);
      var delivered := DeliveredIndices(results, |results|);
      var successes := Successes(t, Envelopes(vs, |vs|), results, |results|);
      && |successes| == |delivered|
      && (forall p :: 0 <= p < |successes| ==>
            var i := indices[delivered[p]];
            && successes[p] == SuccessFor(t, vs[i].value, results[delivered[p]])
            && successes[p].id == entries[i].id)
      && (forall p, q :: 0 <= p < q < |successes| ==>
            indices[delivered[p]] < indices[delivered[q]] && successes[p].id != successes[q].id)
  {
    SuccessesAreDelivered(t, Envelopes(vs, |vs|), results, |results|);
  }

  /** Positions of the rejected entries among the first n, in order. */
  function RejectedIndices(vs: seq<Result<Envelope, string>>, n: nat): (s: seq<nat>)
    requires n <= |vs|
    ensures forall p :: 0 <= p < |s| ==> s[p] < n && vs[s[p]].Err?
    ensures forall p, q :: 0 <= p < q < |s| ==> s[p] < s[q]
  {
    if n == 0 then []
    else if vs[n - 1].Ok? then RejectedIndices(vs, n - 1)
    else RejectedIndices(vs, n - 1) + [n - 1]
  }

  /** Positions of the failed results among the first n, in order. */
  function FailedIndices(results: seq<ProduceResult>, n: nat): (s: seq<nat>)
    requires n <= |results|
    ensures forall p :: 0 <= p < |s| ==> s[p] < n && (results[s[p]].err.Some? || results[s[p]].errorCode.Some?)
    ensures forall p, q :: 0 <= p < q < |s| ==> s[p] < s[q]
  {
    if n == 0 then []
    else if results[n - 1].err.Some? || results[n - 1].errorCode.Some? then FailedIndices(results, n - 1) + [n - 1]
    else FailedIndices(results, n - 1)
  }

  /** Rejection p is that of entry ks[p], with code 400 and its own reason. */
  ghost predicate AreRejectedAt(fs: seq<BatchFailure>, ks: seq<nat>, entries: seq<Entry>, vs: seq<Result<Envelope, string>>) {
    && |fs| == |ks|
    && forall p :: 0 <= p < |ks| ==>
         && ks[p] < |entries| && ks[p] < |vs| && vs[ks[p]].Err?
         && fs[p] == BatchFailure(entries[ks[p]].id, 400, vs[ks[p]].error)
  }

  lemma {:induction false} RejectOne(fs: seq<BatchFailure>, ks: seq<nat>, entries: seq<Entry>, vs: seq<Result<Envelope, string>>, k: nat)
    requires AreRejectedAt(fs, ks, entries, vs) && k < |entries| && k < |vs| && vs[k].Err?
    ensures AreRejectedAt(fs + [BatchFailure(entries[k].id, 400, vs[k].error)], ks + [k], entries, vs)
  {
  }

  lemma {:induction false} RejectionsAreOrdered(entries: seq<Entry>, vs: seq<Result<Envelope, string>>, n: nat)
    requires n <= |vs| == |entries|
    ensures AreRejectedAt(Rejections(entries, vs, n), RejectedIndices(vs, n), entries, vs)
  {
    if n > 0 {
      RejectionsAreOrdered(entries, vs, n - 1);
      if vs[n - 1].Err? {
        RejectOne(Rejections(entries, vs, n - 1), RejectedIndices(vs, n - 1), entries, vs, n - 1);
      }
    }
  }

  /** Failure p is that of result ks[p], under its own envelope. */
  ghost predicate AreFiledAt(fs: seq<BatchFailure>, ks: seq<nat>, envelopes: seq<Envelope>, results: seq<ProduceResult>) {
    && |fs| == |ks|
    && forall p :: 0 <= p < |ks| ==>
         ks[p] < |envelopes| && ks[p] < |results| && fs[p] == KafkaFailure(envelopes[ks[p]], results[ks[p]])
  }

  lemma {:induction false} KafkaFailuresAreFailed(envelopes: seq<Envelope>, results: seq<ProduceResult>, n: nat)
    requires n <= |envelopes| && n <= |results|
    ensures AreFiledAt(KafkaFailures(envelopes, results, n), FailedIndices(results, n), envelopes, results)
  {
    CollectIsWhere(ResultFailed, KafkaFailure, envelopes, results, n);
    WhereDelivered(results, n);
  }

  /** The failures Kafka reported are in input order, each under the id of its own entry and with
      its own error. `Handled` puts them after the rejections. */
  lemma {:induction false} KafkaFailuresAreOrdered(entries: seq<Entry>, vs: seq<Result<Envelope, string>>, results: seq<ProduceResult>)
    requires Judged(entries, vs) && |results| == |AcceptedIndices(vs, |vs|)|
    ensures
      var indices := AcceptedIndices(vs, |vs|);
      var failed := FailedIndices(results, |results|);
      var failures := KafkaFailures(Envelopes(vs, |vs|), results, |results|);
      && |failures| == |failed|
      && (forall p :: 0 <= p < |failed| ==>
            var i, r := indices[failed[p]], results[failed[p]];
            failures[p] == BatchFailure(entries[i].id, ResultErrorCode(r), Shown(ResultErrorMessage(r))))
  {
    KafkaFailuresAreFailed(Envelopes(vs, |vs|), results, |results|);
  }

  // ---------------------------------------------------------------------------------------
  // The answer, from the inputs alone

  /** Produce gets one record per accepted entry, in order, each field by field that entry's own. */
  ghost predicate AreOwnRecords(rs: seq<Record>, topic: string, entries: seq<Entry>, indices: seq<nat>) {
    && |rs| == |indices|
    && forall p :: 0 <= p < |rs| ==> indices[p] < |entries| && IsRecord(rs[p], topic, entries[indices[p]].record)
  }

  lemma {:induction false} VerdictIsOwn(topic: string, entries: seq<Entry>, l: DecodeLimits, i: nat)
    requires i < |entries| && Verdict(topic, entries, l, i).Ok?
    ensures
      var e, entry := Verdict(topic, entries, l, i).value, entries[i];
      && e.id == entry.id && IsRecord(e.record, topic, entry.record)
      && IsMetadata(entry.record.key, e.key) && IsMetadata(entry.record.value, e.value)
  {
    EnvelopeIsItsRecord(topic, entries[i].id, entries[i].record, l);
  }

  lemma {:induction false} RecordsAreOwn(topic: string, entries: seq<Entry>, l: DecodeLimits)
    ensures
      var vs := Verdicts(topic, entries, l);
      AreOwnRecords(RecordsOf(Envelopes(vs, |vs|)), topic, entries, AcceptedIndices(vs, |vs|))
  {
    var vs := Verdicts(topic, entries, l);
    var indices := AcceptedIndices(vs, |vs|);
    forall p | 0 <= p < |indices|
      ensures IsRecord(vs[indices[p]].value.record, topic, entries[indices[p]].record)
    {
      VerdictIsOwn(topic, entries, l, indices[p]);
    }
  }

  /** The success of this entry reports this result. */
  ghost predicate IsSuccessOf(s: BatchSuccess, t: Target, entry: Entry, r: ProduceResult) {
    && s.id == entry.id
    && s.report.Delivered?
    && s.report.topic == t.topic && s.report.partition == r.partition && s.report.offset == r.offset
    && s.report.clusterId == (if Compaction.TrimSpace(t.clusterId) == "" then "local" else t.clusterId)
    && IsMetadata(entry.record.key, s.report.key) && IsMetadata(entry.record.value, s.report.value)
  }

  /** The failure of this entry reports this result's code and text. */
  ghost predicate IsFailureOf(f: BatchFailure, entry: Entry, r: ProduceResult) {
    && f.id == entry.id
    && f.code == (if r.errorCode.Some? then r.errorCode.value else 50002)
    && f.message == (if r.err.Some? then Shown(r.err.value) else "Kafka produce failed")
  }

  /** The rejection of entry i names the first check that failed. */
  ghost predicate IsRejectionOf(f: BatchFailure, entries: seq<Entry>, i: nat)
    requires i < |entries|
  {
    && f.id == entries[i].id && f.code == 400
    && (f.id == "" ==> f.message == "id is required")
    && (|f.id| > 80 ==> f.message == "id exceeds 80 characters")
    && (f.id != "" && |f.id| <= 80 && (exists j :: 0 <= j < i && entries[j].id == f.id) ==> f.message == "duplicate id")
  }

  lemma {:induction false} RejectionIsNamed(topic: string, entries: seq<Entry>, l: DecodeLimits, i: nat)
    requires i < |entries| && Verdict(topic, entries, l, i).Err?
    ensures IsRejectionOf(BatchFailure(entries[i].id, 400, Verdict(topic, entries, l, i).error), entries, i)
  {
  }

  lemma {:induction false} SuccessIsOwn(t: Target, entries: seq<Entry>, l: DecodeLimits, i: nat, r: ProduceResult)
    requires i < |entries| && Verdict(t.topic, entries, l, i).Ok? && r.err.None? && r.errorCode.None?
    ensures IsSuccessOf(SuccessFor(t, Verdict(t.topic, entries, l, i).value, r), t, entries[i], r)
  {
    VerdictIsOwn(t.topic, entries, l, i);
    ResultIsReported(t, Verdict(t.topic, entries, l, i).value, r);
  }

  lemma {:induction false} FailureIsOwn(topic: string, entries: seq<Entry>, l: DecodeLimits, i: nat, r: ProduceResult)
    requires i < |entries| && Verdict(topic, entries, l, i).Ok? && (r.err.Some? || r.errorCode.Some?)
    ensures IsFailureOf(KafkaFailure(Verdict(topic, entries, l, i).value, r), entries[i], r)
  {
    VerdictIsOwn(topic, entries, l, i);
    FailureIsReported(r);
  }

  /** Each success carries the result of the record of its own entry. */
  ghost predicate SuccessesAreOwn(successes: seq<BatchSuccess>, t: Target, entries: seq<Entry>, indices: seq<nat>, results: seq<ProduceResult>) {
    var delivered := DeliveredIndices(results, |results|);
    && |successes| == |delivered| && |results| == |indices|
    && forall p :: 0 <= p < |delivered| ==>
         indices[delivered[p]] < |entries| && IsSuccessOf(successes[p], t, entries[indices[delivered[p]]], results[delivered[p]])
  }

  /** Each rejection is that of its entry, with its reason. */
  ghost predicate RejectionsAreOwn(failures: seq<BatchFailure>, entries: seq<Entry>, rejected: seq<nat>) {
    && |failures| == |rejected|
    && forall p :: 0 <= p < |rejected| ==> rejected[p] < |entries| && IsRejectionOf(failures[p], entries, rejected[p])
  }

  /** Each Kafka failure carries the result of the record of its own entry. */
  ghost predicate KafkaFailuresAreOwn(failures: seq<BatchFailure>, entries: seq<Entry>, indices: seq<nat>, results: seq<ProduceResult>) {
    var failed := FailedIndices(results, |results|);
    && |failures| == |failed| && |results| == |indices|
    && forall p :: 0 <= p < |failed| ==>
         indices[failed[p]] < |entries| && IsFailureOf(failures[p], entries[indices[failed[p]]], results[failed[p]])
  }

  /** First the rejected entries, then those whose own record Kafka failed. */
  ghost predicate FailuresAreOwn(failures: seq<BatchFailure>, entries: seq<Entry>, rejected: seq<nat>, indices: seq<nat>, results: seq<ProduceResult>) {
    && |rejected| <= |failures|
    && RejectionsAreOwn(failures[..|rejected|], entries, rejected)
    && KafkaFailuresAreOwn(failures[|rejected|..], entries, indices, results)
  }

  lemma {:induction false} FiledSuccessesAreOwn(t: Target, entries: seq<Entry>, l: DecodeLimits, results: seq<ProduceResult>)
    requires |results| == |AcceptedIndices(Verdicts(t.topic, entries, l), |entries|)|
    ensures
      var vs := Verdicts(t.topic, entries, l);
      SuccessesAreOwn(Successes(t, Envelopes(vs, |vs|), results, |results|), t, entries, AcceptedIndices(vs, |vs|), results)
  {
    var vs := Verdicts(t.topic, entries, l);
    var indices, delivered := AcceptedIndices(vs, |vs|), DeliveredIndices(results, |results|);
    SuccessesAreDelivered(t, Envelopes(vs, |vs|), results, |results|);
    forall p | 0 <= p < |delivered|
      ensures IsSuccessOf(SuccessFor(t, vs[indices[delivered[p]]].value, results[delivered[p]]), t, entries[indices[delivered[p]]], results[delivered[p]])
    {
      SuccessIsOwn(t, entries, l, indices[delivered[p]], results[delivered[p]]);
    }
  }

  lemma {:induction false} FiledRejectionsAreOwn(topic: string, entries: seq<Entry>, l: DecodeLimits)
    ensures
      var vs := Verdicts(topic, entries, l);
      RejectionsAreOwn(Rejections(entries, vs, |vs|), entries, RejectedIndices(vs, |vs|))
  {
    var vs := Verdicts(topic, entries, l);
    var rejected := RejectedIndices(vs, |vs|);
    RejectionsAreOrdered(entries, vs, |vs|);
    forall p | 0 <= p < |rejected|
      ensures IsRejectionOf(BatchFailure(entries[rejected[p]].id, 400, vs[rejected[p]].error), entries, rejected[p])
    {
      RejectionIsNamed(topic, entries, l, rejected[p]);
    }
  }

  lemma {:induction false} FiledKafkaFailuresAreOwn(topic: string, entries: seq<Entry>, l: DecodeLimits, results: seq<ProduceResult>)
    requires |results| == |AcceptedIndices(Verdicts(topic, entries, l), |entries|)|
    ensures
      var vs := Verdicts(topic, entries, l);
      KafkaFailuresAreOwn(KafkaFailures(Envelopes(vs, |vs|), results, |results|), entries, AcceptedIndices(vs, |vs|), results)
  {
    var vs := Verdicts(topic, entries, l);
    var indices, failed := AcceptedIndices(vs, |vs|), FailedIndices(results, |results|);
    KafkaFailuresAreFailed(Envelopes(vs, |vs|), results, |results|);
    forall p | 0 <= p < |failed|
      ensures IsFailureOf(KafkaFailure(vs[indices[failed[p]]].value, results[failed[p]]), entries[indices[failed[p]]], results[failed[p]])
    {
      FailureIsOwn(topic, entries, l, indices[failed[p]], results[failed[p]]);
    }
  }

  lemma {:induction false} FiledFailuresAreOwn(topic: string, entries: seq<Entry>, l: DecodeLimits, results: seq<ProduceResult>)
    requires |results| == |AcceptedIndices(Verdicts(topic, entries, l), |entries|)|
    ensures
      var vs := Verdicts(topic, entries, l);
      FailuresAreOwn(Rejections(entries, vs, |vs|) + KafkaFailures(Envelopes(vs, |vs|), results, |results|), entries,
                     RejectedIndices(vs, |vs|), AcceptedIndices(vs, |vs|), results)
  {
    var vs := Verdicts(topic, entries, l);
    var first, second := Rejections(entries, vs, |vs|), KafkaFailures(Envelopes(vs, |vs|), results, |results|);
    FiledRejectionsAreOwn(topic, entries, l);
    FiledKafkaFailuresAreOwn(topic, entries, l, results);
    assert (first + second)[..|first|] == first && (first + second)[|first|..] == second;
  }

  /** How a batch whose accepted entries' records were given to Produce as `rs` is answered: by the
      error, unmapped, or entry by entry. */
  ghost predicate AnswersFor(rs: seq<Record>, t: Target, entries: seq<Entry>, rejected: seq<nat>, indices: seq<nat>,
                             produced: Result<seq<ProduceResult>, ProduceError>, out: BatchOutcome) {
    && AreOwnRecords(rs, t.topic, entries, indices)
    && match produced
       case Err(OverloadedError) => out == Refusal(ApiError(429, 429, "producer is overloaded"))
       case Err(ContextEnded(why)) => out == Refusal(ApiError(503, 503, why))
       case Err(OtherError(why)) => out == Refusal(ApiError(503, 503, why))
       case Ok(results) =>
         && out.MultiStatus?
         && SuccessesAreOwn(out.successes, t, entries, indices, results)
         && FailuresAreOwn(out.failures, entries, rejected, indices, results)
  }

  /** Every batch with an accepted entry is answered with what Produce says of the entries' own records:
      each success and each Kafka failure carries the result of the record of its own entry. */
  lemma {:induction false} EachResultIsItsOwn(t: Target, entries: seq<Entry>, l: DecodeLimits,
                                              produce: seq<Record> -> Result<seq<ProduceResult>, ProduceError>, out: BatchOutcome)
    requires Handled(t, entries, Verdicts(t.topic, entries, l), produce, out)
    requires AcceptedIndices(Verdicts(t.topic, entries, l), |entries|) != []
    ensures
      var vs := Verdicts(t.topic, entries, l);
      exists rs: seq<Record> ::
        AnswersFor(rs, t, entries, RejectedIndices(vs, |vs|), AcceptedIndices(vs, |vs|), produce(rs), out)
  {
    var vs := Verdicts(t.topic, entries, l);
    var rs := RecordsOf(Envelopes(vs, |vs|));
    RecordsAreOwn(t.topic, entries, l);
    if produce(rs).Ok? {
      FiledSuccessesAreOwn(t, entries, l, produce(rs).value);
      FiledFailuresAreOwn(t.topic, entries, l, produce(rs).value);
    }
    assert AnswersFor(rs, t, entries, RejectedIndices(vs, |vs|), AcceptedIndices(vs, |vs|), produce(rs), out);
  }

  lemma {:induction false} AcceptedOrRejected(vs: seq<Result<Envelope, string>>, n: nat)
    requires n <= |vs|
    ensures |AcceptedIndices(vs, n)| + |RejectedIndices(vs, n)| == n
  {
    if n > 0 {
      AcceptedOrRejected(vs, n - 1);
    }
  }

  /** A batch without an accepted entry is answered all the same: no success, and every entry rejected
      with its own reason, whatever Produce would have said. */
  lemma {:induction false} NothingAcceptedIsAnswered(t: Target, entries: seq<Entry>, l: DecodeLimits,
                                                     produce: seq<Record> -> Result<seq<ProduceResult>, ProduceError>, out: BatchOutcome)
    requires Handled(t, entries, Verdicts(t.topic, entries, l), produce, out)
    requires AcceptedIndices(Verdicts(t.topic, entries, l), |entries|) == []
    ensures out.MultiStatus? && out.successes == []
    ensures RejectionsAreOwn(out.failures, entries, RejectedIndices(Verdicts(t.topic, entries, l), |entries|))
    ensures |out.failures| == |entries|
  {
    FiledRejectionsAreOwn(t.topic, entries, l);
    AcceptedOrRejected(Verdicts(t.topic, entries, l), |entries|);
  }

  /** Whatever the verdicts: when a batch with an accepted entry gets a produce error, it is refused,
      never with 504, and with 503 exactly when the producer was not overloaded, so a timeout answers 503. */
  lemma {:induction false} BatchTimeoutIsNot504(t: Target, entries: seq<Entry>, vs: seq<Result<Envelope, string>>, i: nat,
                                                produce: seq<Record> -> Result<seq<ProduceResult>, ProduceError>, out: BatchOutcome)
    requires |vs| == |entries| && Handled(t, entries, vs, produce, out)
    requires i < |vs| && vs[i].Ok? && produce(RecordsOf(Envelopes(vs, |vs|))).Err?
    ensures out.Refusal? && out.error.status != 504
    ensures out.error.status == 503 <==> !produce(RecordsOf(Envelopes(vs, |vs|))).error.OverloadedError?
  {
    AcceptedIsEnveloped(vs, |vs|, i);
  }

  lemma {:induction false} AcceptedIsEnveloped(vs: seq<Result<Envelope, string>>, n: nat, i: nat)
    requires i < n <= |vs| && vs[i].Ok?
    ensures Envelopes(vs, n) != []
  {
    if i < n - 1 {
      AcceptedIsEnveloped(vs, n - 1, i);
    }
  }
}
