/** From the Kafka client's callbacks to what an HTTP client reads: the produce protocol, the printed v2
    response, the server's count and the soak client's count, together. */
module EndToEnd {
  import opened Base
  import opened Records
  import opened Json
  import opened ProduceProtocol
  import opened ProduceTheorems
  import opened ProduceResponse
  import opened ResponseReader
  import Soak

  /** What the HTTP client reads about a record whose callback reported this: its place, or null and null
      with code 50002 and the error's text. */
  predicate TellsClient(entry: Offset, o: ProduceProtocol.Outcome) {
    if o.err.Some? then entry == Offset(None, None, Some(50002), Some(Shown(o.err.value)))
    else entry == Offset(Some(if o.present then o.partition else 0), Some(if o.present then o.offset else 0), None, None)
  }

  /** The i-th callback of request q reported something, and this entry tells the client exactly that. */
  ghost predicate TellsReport(run: Run, k: nat, q: nat, i: nat, entry: Offset) {
    exists o: ProduceProtocol.Outcome :: Delivered(run, k, q, i, o) && TellsClient(entry, o)
  }

  lemma {:induction false} ReportedTells(r: ProduceResult, o: ProduceProtocol.Outcome)
    requires Tells(r, o)
    ensures TellsClient(Reported(r), o)
  {
  }

  /** In every run, when Produce has returned results and their texts are safe, the printed response reads
      back with one entry per record, in order, each telling the client what the Kafka client reported
      for that record. */
  lemma {:induction false} ResponseTellsCallbacks(run: Run, maxRecords: int, maxBytes: int, k: nat, q: nat, table: char -> bool, meta: Meta)
    requires ValidRun(run, maxRecords, maxBytes) && k < |run.states| && q < |run.states[k].requests|
    requires run.states[k].requests[q].pc.ReturnedResults? && TextsSafe(table, run.states[k].requests[q].core.results)
    ensures
      var r := run.states[k].requests[q];
      var d := Parse(ResponseBytes(table, r.core.results, meta));
      && d.Some? && ReadResponse(d.value.tree).Some?
      && var response := ReadResponse(d.value.tree).value;
      && response.keySchemaId == meta.keySchemaId && response.valueSchemaId == meta.valueSchemaId
      && |response.offsets| == |r.records|
      && forall i :: 0 <= i < |r.records| ==> TellsReport(run, k, q, i, response.offsets[i])
  {
    var r := run.states[k].requests[q];
    ReturnedResultsAreOutcomes(run, maxRecords, maxBytes, k, q);
    ResponseRoundTrip(table, r.core.results, meta);
    forall i | 0 <= i < |r.records|
      ensures TellsReport(run, k, q, i, Reports(r.core.results)[i])
    {
      ReportedTells(r.core.results[i], r.outcomes[i].value);
    }
  }

  /** How many records of this list had an error reported. */
  function ErrorsIn(outcomes: seq<Option<ProduceProtocol.Outcome>>): nat {
    if outcomes == [] then 0
    else
      var last := outcomes[|outcomes| - 1];
      ErrorsIn(outcomes[..|outcomes| - 1]) + (if last.Some? && last.value.err.Some? then 1 else 0)
  }

  lemma {:induction false} FailuresAreErrors(results: seq<ProduceResult>, outcomes: seq<Option<ProduceProtocol.Outcome>>)
    requires |results| == |outcomes|
    requires forall i :: 0 <= i < |results| ==> outcomes[i].Some? && Tells(results[i], outcomes[i].value)
    ensures Soak.FailedCount(results) == ErrorsIn(outcomes)
  {
    if results != [] {
      FailuresAreErrors(results[..|results| - 1], outcomes[..|outcomes| - 1]);
    }
  }

  /** And both the server and every client that can read the response count as failed exactly the records
      whose callback reported an error. */
  lemma {:induction false} CountsAreErrors(run: Run, maxRecords: int, maxBytes: int, k: nat, q: nat, table: char -> bool, meta: Meta)
    requires ValidRun(run, maxRecords, maxBytes) && k < |run.states| && q < |run.states[k].requests|
    requires run.states[k].requests[q].pc.ReturnedResults?
    ensures
      var r := run.states[k].requests[q];
      var seen := Soak.ReadClientResponse(ResponseBytes(table, r.core.results, meta));
      && Soak.FailedCount(r.core.results) == ErrorsIn(r.outcomes)
      && (seen.Some? ==> Soak.FailedOffsets(seen.value) == ErrorsIn(r.outcomes))
  {
    var r := run.states[k].requests[q];
    ReturnedResultsAreOutcomes(run, maxRecords, maxBytes, k, q);
    RunShape(run, maxRecords, maxBytes, k, q);
    FailuresAreErrors(r.core.results, r.outcomes);
    Soak.ClientAndServerAgree(table, r.core.results, meta);
  }

  lemma {:induction false} RunShape(run: Run, maxRecords: int, maxBytes: int, k: nat, q: nat)
    requires ValidRun(run, maxRecords, maxBytes) && k < |run.states| && q < |run.states[k].requests|
    ensures |run.states[k].requests[q].outcomes| == |run.states[k].requests[q].core.results|
  {
  }
}
