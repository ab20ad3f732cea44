/** What the produce protocol promises over whole runs. */
module ProduceTheorems {
  import opened Base
  import opened Records
  import opened Limits
  import opened ProduceProtocol
  import opened ProduceInvariants
  import Partitioner

  // ---------------------------------------------------------------------------------------
  // Capacity

  /** In every reachable state the ledger is the exact sum over the requests that acquired and
      have not given back, it respects every limit that is on, and no release is clamped. */
  lemma {:induction false} LedgerIsExact(run: Run, maxRecords: int, maxBytes: int, k: nat)
    requires ValidRun(run, maxRecords, maxBytes) && k < |run.states|
    ensures
      var s := run.states[k];
      && s.ledger.usedRecords == Sum(s.requests, HeldRecords)
      && s.ledger.usedBytes == Sum(s.requests, HeldBytes)
      && (maxRecords > 0 ==> s.ledger.usedRecords <= maxRecords)
      && (maxBytes > 0 ==> s.ledger.usedBytes <= maxBytes)
      && (k < |run.steps| ==> ClampsIdle(s, run.steps[k]))
  {
    RunKeepsInv(run, maxRecords, maxBytes, k);
    if k < |run.steps| {
      StepKeepsInv(run.states[k], run.steps[k]);
    }
  }

  predicate Returned(r: Request) {
    !(r.pc.Admitting? || r.pc.Submitting? || r.pc.Handing? || r.pc.Waiting? || r.pc.TimedOut? || r.pc.OwnRelease?)
  }

  ghost predicate HasReleasingCallback(r: Request) {
    exists i :: 0 <= i < |r.callbacks| && r.callbacks[i].LastRelease?
  }

  /** A Produce call that has returned results has given its capacity back. One that returned a
      timeout has, except while the last callback sits between its compare-and-swap and its
      Admission.Release: exactly then the caller is gone and the capacity still counted. */
  lemma {:induction false} ReturnedRequestHolds(run: Run, maxRecords: int, maxBytes: int, k: nat, q: nat)
    requires ValidRun(run, maxRecords, maxBytes) && k < |run.states|
    requires q < |run.states[k].requests| && Returned(run.states[k].requests[q])
    ensures
      var r := run.states[k].requests[q];
      && (r.pc.ReturnedResults? ==> HeldRecords(r) == 0 && HeldBytes(r) == 0)
      && (HeldRecords(r) > 0 <==> r.pc.ReturnedTimeout? && HasReleasingCallback(r))
  {
    RunKeepsInv(run, maxRecords, maxBytes, k);
    var r := run.states[k].requests[q];
    CountIfExtremes(r.callbacks, Releasing);
    CountIfExtremes(r.callbacks, Closing);
  }

  /** Nothing leaks: once all calls have returned and no callback is about to release, used is zero. */
  lemma {:induction false} QuiescentLedgerIsZero(run: Run, maxRecords: int, maxBytes: int, k: nat)
    requires ValidRun(run, maxRecords, maxBytes) && k < |run.states|
    requires forall q :: 0 <= q < |run.states[k].requests| ==>
               Returned(run.states[k].requests[q]) && !HasReleasingCallback(run.states[k].requests[q])
    ensures run.states[k].ledger.usedRecords == 0 && run.states[k].ledger.usedBytes == 0
  {
    LedgerIsExact(run, maxRecords, maxBytes, k);
    var rs := run.states[k].requests;
    forall q | 0 <= q < |rs|
      ensures HeldRecords(rs[q]) == 0 && HeldBytes(rs[q]) == 0
    {
      ReturnedRequestHolds(run, maxRecords, maxBytes, k, q);
      RunKeepsInv(run, maxRecords, maxBytes, k);
    }
    SumZero(rs, HeldRecords);
    SumZero(rs, HeldBytes);
  }

  /** In every reachable state 64-bit admission takes the decision of the unbounded model, for every
      batch that fits together with the limits that are on, and the counters they bound are exact. */
  lemma {:induction false} ReachableAdmissionNeverWraps(run: Run, maxRecords: int, maxBytes: int, k: nat, records: nat, bytes: nat)
    requires ValidRun(run, maxRecords, maxBytes) && k < |run.states|
    requires records < TWO_63 && bytes < TWO_63 && Fits(maxRecords, records) && Fits(maxBytes, bytes)
    ensures AdmissionIsExact(run.states[k].ledger, records, bytes)
  {
    RunKeepsInv(run, maxRecords, maxBytes, k);
    Admits64Agrees(run.states[k].ledger, records, bytes);
    Return64Agrees(run.states[k].ledger, records, bytes);
  }

  /** The 64-bit controller decides as the ledger does, and keeps each counter that has a limit. */
  predicate AdmissionIsExact(l: Ledger, records: int, bytes: int) {
    && (Admits64(l, records, bytes) <==> Admits(l, records, bytes))
    && (l.maxRecords > 0 ==>
          && Acquire64(l, records, bytes).usedRecords == Acquire(l, records, bytes).usedRecords
          && Return64(l, records, bytes).usedRecords == Return(l, records, bytes).usedRecords)
    && (l.maxBytes > 0 ==>
          && Acquire64(l, records, bytes).usedBytes == Acquire(l, records, bytes).usedBytes
          && Return64(l, records, bytes).usedBytes == Return(l, records, bytes).usedBytes)
  }

  /** Bytes are only ever held together with a record. */
  lemma {:induction false} NoRecordsNoBytes(s: System)
    requires Inv(s) && s.ledger.usedRecords == 0
    ensures s.ledger.usedBytes == 0
  {
    SumZero(s.requests, HeldRecords);
    SumZero(s.requests, HeldBytes);
  }

  /** A fresh producer admits this batch. */
  lemma {:induction false} AdmitFirst(maxRecords: int, maxBytes: int, records: seq<Record>) returns (run: Run)
    requires records != [] && Admits(Ledger(maxRecords, maxBytes, 0, 0), |records|, TotalBytes(records))
    ensures ValidRun(run, maxRecords, maxBytes) && |run.states| == 3
    ensures run.states[2].ledger == Ledger(maxRecords, maxBytes, |records|, TotalBytes(records))
  {
    var s0 := Initial(maxRecords, maxBytes);
    var s1 := Next(s0, Arrive(records));
    assert s1.requests == [NewCall(records, Admitting)];
    var step := Act(0, Admit(true));
    run := Run([s0, s1, Next(s1, step)], [Arrive(records), step]);
  }

  /** So every ledger with a record in use, within the limits that are on, is reachable. */
  lemma {:induction false} AdmitOne(maxRecords: int, maxBytes: int, n: nat, bytes: nat) returns (run: Run)
    requires n >= 1 && (maxRecords > 0 ==> n <= maxRecords) && (maxBytes > 0 ==> bytes <= maxBytes)
    ensures ValidRun(run, maxRecords, maxBytes) && |run.states| == 3
    ensures run.states[2].ledger == Ledger(maxRecords, maxBytes, n, bytes)
  {
    var big := Record("t", None, Some(seq(bytes, _ => 'x')), [], None);
    BytesOfFirst(big, n - 1);
    run := AdmitFirst(maxRecords, maxBytes, [big] + seq(n - 1, _ => Record("t", None, None, [], None)));
  }

  lemma {:induction false} BytesOfFirst(first: Record, n: nat)
    ensures TotalBytes([first] + seq(n, _ => Record("t", None, None, [], None))) == SizeBytes(first)
  {
    var empty := Record("t", None, None, [], None);
    var records := [first] + seq(n, _ => empty);
    if n == 0 {
      assert records == [first] && records[..0] == [];
    } else {
      assert records[..n] == [first] + seq(n - 1, _ => empty);
      assert records[n] == empty;
      BytesOfFirst(first, n - 1);
    }
  }

  /** In no reachable state does the 64-bit controller let in a batch the limits exclude. */
  ghost predicate RunsNeverOverAdmit(maxRecords: int, maxBytes: int, mostRecords: int, mostBytes: int) {
    forall run: Run, k: nat, records: nat, bytes: nat ::
      ValidRun(run, maxRecords, maxBytes) && k < |run.states| && 1 <= records <= mostRecords && bytes <= mostBytes ==>
        !OverAdmits(run.states[k].ledger, records, bytes)
  }

  /** With a single record slot a second batch is refused before its bytes matter. */
  lemma {:induction false} OneSlotNeverOverAdmits(s: System, records: nat, bytes: nat)
    requires Inv(s) && s.ledger.maxRecords == 1 && records >= 1 && 1 + records < TWO_63 && bytes < TWO_63
    ensures !OverAdmits(s.ledger, records, bytes)
  {
    if s.ledger.usedRecords == 0 {
      NoRecordsNoBytes(s);
    }
  }

  /** Over whole runs, for batches of 1 to mostRecords records and up to mostBytes bytes: admission
      never lets in too much exactly when the record limit fits with the largest batch and so does
      the byte limit, unless there is room for one record only. */
  lemma {:induction false} RunsNeverOverAdmitIff(maxRecords: int, maxBytes: int, mostRecords: int, mostBytes: int)
    requires IsInt64(maxRecords) && IsInt64(maxBytes) && 1 <= mostRecords < TWO_63 && 0 <= mostBytes < TWO_63
    ensures RunsNeverOverAdmit(maxRecords, maxBytes, mostRecords, mostBytes) <==>
            Fits(maxRecords, mostRecords) && (Fits(maxBytes, mostBytes) || maxRecords == 1)
  {
    if !Fits(maxRecords, mostRecords) {
      var run := AdmitOne(maxRecords, maxBytes, maxRecords, 0);
      OverAdmitsIff(run.states[2].ledger, mostRecords, 0);
    } else if !Fits(maxBytes, mostBytes) && maxRecords != 1 {
      var run := AdmitOne(maxRecords, maxBytes, 1, maxBytes);
      OverAdmitsIff(run.states[2].ledger, 1, mostBytes);
    } else {
      forall run: Run, k: nat, records: nat, bytes: nat |
        ValidRun(run, maxRecords, maxBytes) && k < |run.states| && 1 <= records <= mostRecords && bytes <= mostBytes
        ensures !OverAdmits(run.states[k].ledger, records, bytes)
      {
        RunKeepsInv(run, maxRecords, maxBytes, k);
        if Fits(maxBytes, mostBytes) {
          Admits64Agrees(run.states[k].ledger, records, bytes);
        } else {
          OneSlotNeverOverAdmits(run.states[k], records, bytes);
        }
      }
    }
  }

  // ---------------------------------------------------------------------------------------
  // Exactly once

  predicate IsReturn(m: Move) { m.ReturnOwn? || m.ReturnLast? }
  predicate IsClose(m: Move) { m.CloseDone? }
  predicate IsDecrement(m: Move) { m.Decrement? }

  /** How many steps of request q satisfy p. */
  function Moves(steps: seq<Step>, q: nat, p: Move -> bool): nat {
    if steps == [] then 0
    else
      var last := steps[|steps| - 1];
      Moves(steps[..|steps| - 1], q, p) + (if last.Act? && last.q == q && p(last.move) then 1 else 0)
  }

  lemma {:induction false} StepTouchesOneRequest(s: System, step: Step, q: nat)
    requires Enabled(s, step) && q < |s.requests|
    ensures q < |Next(s, step).requests|
    ensures Next(s, step).requests[q] ==
            if step.Act? && step.q == q then LocalNext(s.requests[q], step.move) else s.requests[q]
  {
  }

  lemma {:induction false} MoveCounts(r: Request, m: Move)
    requires RequestInv(r) && LocallyEnabled(r, m)
    ensures
      var r' := LocalNext(r, m);
      && r'.releases == r.releases + (if IsReturn(m) then 1 else 0)
      && r'.core.closes == r.core.closes + (if IsClose(m) then 1 else 0)
      && |r'.callbacks| - r'.core.remaining == |r.callbacks| - r.core.remaining + (if IsDecrement(m) then 1 else 0)
  {
  }

  lemma {:induction false} MovesStep(steps: seq<Step>, k: nat, q: nat, p: Move -> bool)
    requires k < |steps|
    ensures
      var step := steps[k];
      Moves(steps[..k + 1], q, p) == Moves(steps[..k], q, p) + (if step.Act? && step.q == q && p(step.move) then 1 else 0)
  {
    assert steps[..k + 1][..k] == steps[..k];
  }

  /** The counters of a request that has made these moves. */
  ghost predicate CountersOk(r: Request, steps: seq<Step>, q: nat) {
    && r.releases == Moves(steps, q, IsReturn)
    && r.core.closes == Moves(steps, q, IsClose)
    && r.core.remaining == |r.callbacks| - Moves(steps, q, IsDecrement)
  }

  /** A call not yet there has made no move; one that is there has made those its counters say. */
  ghost predicate HistoryOk(s: System, steps: seq<Step>, q: nat) {
    if q < |s.requests| then CountersOk(s.requests[q], steps, q)
    else Moves(steps, q, IsReturn) == 0 && Moves(steps, q, IsClose) == 0 && Moves(steps, q, IsDecrement) == 0
  }

  /** `releases`, `closes` and `remaining` are the history they stand for. */
  lemma {:induction false} CountersAreHistory(run: Run, maxRecords: int, maxBytes: int, k: nat, q: nat)
    requires ValidRun(run, maxRecords, maxBytes) && k < |run.states|
    ensures HistoryOk(run.states[k], run.steps[..k], q)
    decreases k
  {
    if k > 0 {
      CountersAreHistory(run, maxRecords, maxBytes, k - 1, q);
      if q < |run.states[k - 1].requests| {
        CountersStep(run, maxRecords, maxBytes, k - 1, q);
      } else {
        AbsentStep(run, maxRecords, maxBytes, k - 1, q);
      }
    }
  }

  lemma {:induction false} AbsentStep(run: Run, maxRecords: int, maxBytes: int, k: nat, q: nat)
    requires ValidRun(run, maxRecords, maxBytes) && k < |run.steps| && q >= |run.states[k].requests|
    requires HistoryOk(run.states[k], run.steps[..k], q)
    ensures HistoryOk(run.states[k + 1], run.steps[..k + 1], q)
  {
    MovesStep(run.steps, k, q, IsReturn);
    MovesStep(run.steps, k, q, IsClose);
    MovesStep(run.steps, k, q, IsDecrement);
    if q < |run.states[k + 1].requests| {
      NewRequestCountsNothing(run.states[k], run.steps[k], q);
    }
  }

  lemma {:induction false} CountersStep(run: Run, maxRecords: int, maxBytes: int, k: nat, q: nat)
    requires ValidRun(run, maxRecords, maxBytes) && k < |run.steps| && q < |run.states[k].requests|
    requires HistoryOk(run.states[k], run.steps[..k], q)
    ensures HistoryOk(run.states[k + 1], run.steps[..k + 1], q)
  {
    var s, step := run.states[k], run.steps[k];
    assert RequestInv(s.requests[q]) by {
      RunKeepsInv(run, maxRecords, maxBytes, k);
    }
    StepTouchesOneRequest(s, step, q);
    MovesStep(run.steps, k, q, IsReturn);
    MovesStep(run.steps, k, q, IsClose);
    MovesStep(run.steps, k, q, IsDecrement);
    if step.Act? && step.q == q {
      MoveCounts(s.requests[q], step.move);
    }
  }

  lemma {:induction false} NewRequestCountsNothing(s: System, step: Step, q: nat)
    requires Enabled(s, step) && |s.requests| <= q < |Next(s, step).requests|
    ensures !step.Act?
    ensures
      var r := Next(s, step).requests[q];
      r.releases == 0 && r.core.closes == 0 && r.core.remaining == |r.callbacks|
  {
  }

  /** Whichever of last callback and timeout wins, Admission.Release runs at most once and `done`
      is closed at most once; when it is closed every record was submitted and every slot
      written; when every callback has finished both have happened exactly once. */
  lemma {:induction false} ReleasedAndClosedOnce(run: Run, maxRecords: int, maxBytes: int, k: nat, q: nat)
    requires ValidRun(run, maxRecords, maxBytes) && k < |run.states|
    requires q < |run.states[k].requests| && Admitted(run.states[k].requests[q])
    ensures
      var r := run.states[k].requests[q];
      var givenBack := Moves(run.steps[..k], q, IsReturn);
      var closes := Moves(run.steps[..k], q, IsClose);
      && givenBack <= 1
      && closes <= 1
      && r.core.remaining == |r.records| - Moves(run.steps[..k], q, IsDecrement)
      && (closes == 1 ==> forall i :: 0 <= i < |r.callbacks| ==> Decremented(r.callbacks[i]))
      && (closes == 1 ==> Submitted(r) == |r.records|)
      && ((forall i :: 0 <= i < |r.callbacks| ==> r.callbacks[i].Finished?) ==> closes == 1)
      && ((forall i :: 0 <= i < |r.callbacks| ==> r.callbacks[i].Finished?) && !r.pc.OwnRelease? ==> givenBack == 1)
  {
    RunKeepsInv(run, maxRecords, maxBytes, k);
    CountersAreHistory(run, maxRecords, maxBytes, k, q);
    var r := run.states[k].requests[q];
    CountIfExtremes(r.callbacks, Decremented);
    CountIfExtremes(r.callbacks, Closing);
    CountIfExtremes(r.callbacks, Releasing);
    assert Submitted(r) < |r.records| ==> r.callbacks[Submitted(r)].Idle?;
  }

  // ---------------------------------------------------------------------------------------
  // Results

  /** Field by field what a result says about a report: the record's partition and offset when there
      is one, and an error with code 50002 exactly when the client reported an error. */
  ghost predicate Tells(r: ProduceResult, o: Outcome) {
    && r.partition == (if o.present then o.partition else 0)
    && r.offset == (if o.present then o.offset else 0)
    && r.err == o.err
    && r.errorCode == (if o.err.Some? then Some(50002) else None)
    && (ResultFailed(r) <==> o.err.Some?)
  }

  /** When Produce returns results there is one per record, slot i is exactly what the client
      reported for record i, and the capacity has been given back. */
  lemma {:induction false} ReturnedResultsAreOutcomes(run: Run, maxRecords: int, maxBytes: int, k: nat, q: nat)
    requires ValidRun(run, maxRecords, maxBytes) && k < |run.states|
    requires q < |run.states[k].requests| && run.states[k].requests[q].pc.ReturnedResults?
    ensures
      var r := run.states[k].requests[q];
      && |r.core.results| == |r.records|
      && (forall i :: 0 <= i < |r.records| ==>
            r.outcomes[i].Some? && Tells(r.core.results[i], r.outcomes[i].value))
      && (forall i :: 0 <= i < |r.records| ==> Delivered(run, k, q, i, r.outcomes[i].value))
      && r.releases == 1
  {
    RunKeepsInv(run, maxRecords, maxBytes, k);
    var r := run.states[k].requests[q];
    CountIfExtremes(r.callbacks, Decremented);
    CountIfExtremes(r.callbacks, Closing);
    CountIfExtremes(r.callbacks, Releasing);
    forall i | 0 <= i < |r.records|
      ensures r.outcomes[i].Some? && Delivered(run, k, q, i, r.outcomes[i].value)
    {
      OutcomesWereDelivered(run, maxRecords, maxBytes, k, q, i);
    }
  }

  /** Before state k the client called record i's callback with this outcome. */
  ghost predicate Delivered(run: Run, k: nat, q: nat, i: nat, o: Outcome) {
    exists j :: 0 <= j < k && j < |run.steps| && run.steps[j] == Act(q, Deliver(i, o))
  }

  lemma {:induction false} OutcomesWereDelivered(run: Run, maxRecords: int, maxBytes: int, k: nat, q: nat, i: nat)
    requires ValidRun(run, maxRecords, maxBytes) && k < |run.states|
    requires q < |run.states[k].requests| && i < |run.states[k].requests[q].outcomes|
    requires run.states[k].requests[q].outcomes[i].Some?
    ensures Delivered(run, k, q, i, run.states[k].requests[q].outcomes[i].value)
    decreases k
  {
    var s, step := run.states[k - 1], run.steps[k - 1];
    var o := run.states[k].requests[q].outcomes[i].value;
    if q < |s.requests| {
      StepTouchesOneRequest(s, step, q);
    }
    if step != Act(q, Deliver(i, o)) {
      OutcomesWereDelivered(run, maxRecords, maxBytes, k - 1, q, i);
    }
  }

  lemma {:induction false} ReturnedMoveIsQuiet(r: Request, m: Move)
    requires RequestInv(r) && LocallyEnabled(r, m) && r.pc.ReturnedResults?
    ensures LocalNext(r, m).pc.ReturnedResults? && LocalNext(r, m).core.results == r.core.results
  {
    CountIfExtremes(r.callbacks, Decremented);
  }

  /** No step of any request ever touches a slice that Produce has returned. */
  lemma {:induction false} ReturnedResultsAreFrozen(run: Run, maxRecords: int, maxBytes: int, k: nat, later: nat, q: nat)
    requires ValidRun(run, maxRecords, maxBytes) && k <= later < |run.states|
    requires q < |run.states[k].requests| && run.states[k].requests[q].pc.ReturnedResults?
    ensures q < |run.states[later].requests|
    ensures run.states[later].requests[q].pc.ReturnedResults?
    ensures run.states[later].requests[q].core.results == run.states[k].requests[q].core.results
    decreases later - k
  {
    if k < later {
      ReturnedResultsAreFrozen(run, maxRecords, maxBytes, k, later - 1, q);
      RunKeepsInv(run, maxRecords, maxBytes, later - 1);
      var s, step := run.states[later - 1], run.steps[later - 1];
      StepTouchesOneRequest(s, step, q);
      if step.Act? && step.q == q {
        ReturnedMoveIsQuiet(s.requests[q], step.move);
      }
    }
  }

  // ---------------------------------------------------------------------------------------
  // Wrappers

  /** A wrapper is never both free and held nor held twice, late callbacks included. */
  lemma {:induction false} WrappersAreNeverShared(run: Run, maxRecords: int, maxBytes: int, k: nat, g: Holder, h: Holder)
    requires ValidRun(run, maxRecords, maxBytes) && k < |run.states|
    requires Held(run.states[k], g).Some?
    ensures Held(run.states[k], g).value !in run.states[k].pool
    ensures g != h ==> Held(run.states[k], g) != Held(run.states[k], h)
  {
    RunKeepsInv(run, maxRecords, maxBytes, k);
  }

  /** What the client holds is exactly the record the caller passed, and the partitioner sends it
      to the partition the caller named, or to the fallback when none was named. */
  lemma {:induction false} InFlightWrapperIsItsRecord(run: Run, maxRecords: int, maxBytes: int, k: nat, q: nat, i: nat,
                                   f: Partitioner.Fallback, n: nat)
    requires ValidRun(run, maxRecords, maxBytes) && k < |run.states|
    requires q < |run.states[k].requests| && i < |run.states[k].requests[q].callbacks|
    requires run.states[k].requests[q].callbacks[i].InFlight?
    ensures
      var s := run.states[k];
      var rec := s.requests[q].records[i];
      var w := s.requests[q].callbacks[i].w;
      && w < |s.wrappers|
      && s.wrappers[w].topic == rec.topic && s.wrappers[w].key == rec.key
      && s.wrappers[w].value == rec.value && s.wrappers[w].headers == rec.headers
      && (rec.partition.Some? && rec.partition.value >= 0 ==>
            && Partitioner.Partition(f, s.wrappers[w], n) == rec.partition.value
            && Partitioner.PartitionByBackup(f, s.wrappers[w], n) == rec.partition.value
            && Partitioner.RequiresConsistency(f, s.wrappers[w]))
      && (rec.partition.None? ==>
            && Partitioner.Partition(f, s.wrappers[w], n) == f.partition(s.wrappers[w], n)
            && Partitioner.PartitionByBackup(f, s.wrappers[w], n)
                 == (if f.byBackup.Some? then f.byBackup.value(s.wrappers[w], n) else f.partition(s.wrappers[w], n))
            && Partitioner.RequiresConsistency(f, s.wrappers[w]) == f.requiresConsistency(s.wrappers[w]))
  {
    RunKeepsInv(run, maxRecords, maxBytes, k);
    assert ContentOk(run.states[k], OfCallback(q, i));
  }

  /** Until it is wiped, the wrapper of a delivered callback still carries its own record and the
      reported partition and offset; it is blank before it re-enters the pool. */
  lemma {:induction false} DeliveredWrapperIsItsRecord(run: Run, maxRecords: int, maxBytes: int, k: nat, q: nat, i: nat)
    requires ValidRun(run, maxRecords, maxBytes) && k < |run.states|
    requires q < |run.states[k].requests| && i < |run.states[k].requests[q].callbacks|
    ensures
      var s := run.states[k];
      var r := s.requests[q];
      var c := r.callbacks[i];
      && (c.Putting? ==> c.w < |s.wrappers| && s.wrappers[c.w] == Wrapper("", None, None, [], 0, 0))
      && (!c.Idle? && !c.InFlight? && !c.Putting? && !c.Finished? ==>
            && c.w < |s.wrappers|
            && s.wrappers[c.w].topic == r.records[i].topic && s.wrappers[c.w].key == r.records[i].key
            && s.wrappers[c.w].value == r.records[i].value && s.wrappers[c.w].headers == r.records[i].headers
            && r.outcomes[i].Some?
            && s.wrappers[c.w].partition == r.outcomes[i].value.partition
            && s.wrappers[c.w].offset == r.outcomes[i].value.offset)
  {
    RunKeepsInv(run, maxRecords, maxBytes, k);
    var c := run.states[k].requests[q].callbacks[i];
    if !c.Idle? && !c.Finished? {
      assert ContentOk(run.states[k], OfCallback(q, i));
    }
  }

  // ---------------------------------------------------------------------------------------
  // Progress

  /** The one move a started callback makes next; an in-flight record waits for the client. */
  function NextMove(s: System, r: Request, i: nat): Move
    requires i < |r.callbacks|
  {
    var c := r.callbacks[i];
    match c
    case Called(w, _, _) => WriteSlot(i, if w < |s.wrappers| then s.wrappers[w] else BLANK)
    case Written(_) => Decrement(i)
    case LastCas(_) => Cas(i)
    case LastRelease(_) => ReturnLast(i)
    case LastClose(_) => CloseDone(i)
    case Wiping(_) => Wipe(i)
    case _ => Put(i)
  }

  /** No started callback is ever stuck: no close of a closed channel, no lost wrapper, no wait. */
  lemma {:induction false} CallbacksNeverStick(run: Run, maxRecords: int, maxBytes: int, k: nat, q: nat, i: nat)
    requires ValidRun(run, maxRecords, maxBytes) && k < |run.states|
    requires q < |run.states[k].requests| && i < |run.states[k].requests[q].callbacks|
    requires var c := run.states[k].requests[q].callbacks[i]; !c.Idle? && !c.InFlight? && !c.Finished?
    ensures Enabled(run.states[k], Act(q, NextMove(run.states[k], run.states[k].requests[q], i)))
    ensures run.states[k].requests[q].callbacks[i].LastClose? ==> run.states[k].requests[q].core.closes == 0
  {
    RunKeepsInv(run, maxRecords, maxBytes, k);
    var s := run.states[k];
    assert Held(s, OfCallback(q, i)).Some?;
    CountIfExtremes(s.requests[q].callbacks, Closing);
  }
}
