/** Progress of the produce protocol: without new calls every run ends, and where it ends every call
    has returned, every callback has finished and nothing is held. And what admission does not bound:
    records the client still holds for callers that have timed out. */
module ProduceProgress {
  import opened Base
  import opened Records
  import opened Limits
  import opened ProduceProtocol
  import opened ProduceInvariants
  import opened ProduceTheorems

  // ---------------------------------------------------------------------------------------
  // Every step uses something up

  /** Moves a callback has left, and one more for pooling its wrapper. */
  function CallbackWeight(c: CallbackPc): nat {
    match c
    case Idle => 11
    case InFlight(_) => 9
    case Called(_, _, _) => 8
    case Written(_) => 7
    case LastCas(_) => 6
    case LastRelease(_) => 5
    case LastClose(_) => 4
    case Wiping(_) => 3
    case Putting(_) => 2
    case Finished => 0
  }

  function CallbacksWeight(cs: seq<CallbackPc>): nat {
    if cs == [] then 0 else CallbackWeight(cs[0]) + CallbacksWeight(cs[1..])
  }

  lemma {:induction false} WeightUpdate(cs: seq<CallbackPc>, i: nat, c: CallbackPc)
    requires i < |cs|
    ensures CallbacksWeight(cs[i := c]) + CallbackWeight(cs[i]) == CallbacksWeight(cs) + CallbackWeight(c)
  {
    if i == 0 {
      assert cs[0 := c][1..] == cs[1..];
    } else {
      assert cs[i := c][1..] == cs[1..][i - 1 := c];
      WeightUpdate(cs[1..], i - 1, c);
    }
  }

  function Idles(n: nat): seq<CallbackPc> {
    seq(n, _ => Idle)
  }

  function PcWeight(r: Request): nat {
    match r.pc
    case Admitting => 6 + CallbacksWeight(Idles(|r.records|))
    case Submitting(_) => 5
    case Handing(_, _) => 4
    case Waiting => 3
    case TimedOut => 2
    case OwnRelease => 1
    case _ => 0
  }

  function Weight(r: Request): nat {
    PcWeight(r) + CallbacksWeight(r.callbacks)
  }

  lemma {:induction false} CallbackMoveDecreases(r: Request, m: Move)
    requires LocallyEnabled(r, m)
    requires m.Deliver? || m.WriteSlot? || m.Decrement? || m.Cas? || m.ReturnLast? || m.CloseDone? || m.Wipe? || m.Put?
    ensures Weight(LocalNext(r, m)) + (if m.Put? then 1 else 0) < Weight(r)
  {
    WeightUpdate(r.callbacks, m.i, LocalNext(r, m).callbacks[m.i]);
  }

  lemma {:induction false} AdmitDecreases(r: Request, ok: bool)
    requires RequestInv(r) && r.pc.Admitting?
    ensures Weight(LocalNext(r, Admit(ok))) < Weight(r)
  {
    if ok {
      assert LocalNext(r, Admit(ok)).callbacks == Idles(|r.records|);
    }
  }

  lemma {:induction false} HandDecreases(r: Request)
    requires RequestInv(r) && r.pc.Handing?
    ensures Weight(LocalNext(r, Hand)) < Weight(r)
  {
    WeightUpdate(r.callbacks, r.pc.next, InFlight(r.pc.held));
  }

  lemma {:induction false} ControlDecreases(r: Request, m: Move)
    requires LocallyEnabled(r, m) && (m.Take? || m.SeeDone? || m.SeeTimeout? || m.OwnCas? || m.ReturnOwn?)
    ensures Weight(LocalNext(r, m)) < Weight(r)
  {
    assert LocalNext(r, m).callbacks == r.callbacks;
  }

  lemma {:induction false} MoveDecreases(r: Request, m: Move)
    requires RequestInv(r) && LocallyEnabled(r, m)
    ensures Weight(LocalNext(r, m)) + (if m.Put? then 1 else 0) < Weight(r)
  {
    if m.Admit? {
      AdmitDecreases(r, m.ok);
    } else if m.Hand? {
      HandDecreases(r);
    } else if m.Take? || m.SeeDone? || m.SeeTimeout? || m.OwnCas? || m.ReturnOwn? {
      ControlDecreases(r, m);
    } else {
      CallbackMoveDecreases(r, m);
    }
  }

  /** What is left to do, pooled wrappers that may be dropped included. */
  ghost function Measure(s: System): nat {
    Sum(s.requests, Weight) + |s.pool|
  }

  /** A step of a call that is there, or the pool forgetting a wrapper. */
  predicate IsInternal(step: Step) {
    step.Act? || step.DropPooled?
  }

  lemma {:induction false} PoolShrinks(pool: set<nat>, w: nat)
    ensures |pool - {w}| <= |pool| && |pool + {w}| <= |pool| + 1
    ensures w in pool ==> |pool - {w}| < |pool|
  {
    if w in pool {
      assert pool == (pool - {w}) + {w};
      assert pool + {w} == pool;
    } else {
      assert pool - {w} == pool;
    }
  }

  lemma {:induction false} StepDecreases(s: System, step: Step)
    requires Inv(s) && Enabled(s, step) && IsInternal(step)
    ensures Measure(Next(s, step)) < Measure(s)
  {
    if step.DropPooled? {
      PoolShrinks(s.pool, step.w);
    } else {
      var r, m := s.requests[step.q], step.move;
      MoveDecreases(r, m);
      SumUpdate(s.requests, step.q, LocalNext(r, m), Weight);
      if m.Take? {
        PoolShrinks(s.pool, m.w);
      } else if m.Put? {
        PoolShrinks(s.pool, r.callbacks[m.i].w);
      }
    }
  }

  lemma {:induction false} RunStepDecreases(run: Run, maxRecords: int, maxBytes: int, k: nat)
    requires ValidRun(run, maxRecords, maxBytes) && k < |run.steps| && IsInternal(run.steps[k])
    ensures Measure(run.states[k + 1]) < Measure(run.states[k])
  {
    RunKeepsInv(run, maxRecords, maxBytes, k);
    StepDecreases(run.states[k], run.steps[k]);
  }

  /** Without new calls a run cannot go on for longer than its measure. */
  lemma {:induction false} RunsEnd(run: Run, maxRecords: int, maxBytes: int, k: nat, later: nat)
    requires ValidRun(run, maxRecords, maxBytes) && k <= later < |run.states|
    requires forall j :: k <= j < later ==> IsInternal(run.steps[j])
    ensures later - k + Measure(run.states[later]) <= Measure(run.states[k])
    decreases later - k
  {
    if k < later {
      RunsEnd(run, maxRecords, maxBytes, k, later - 1);
      RunStepDecreases(run, maxRecords, maxBytes, later - 1);
    }
  }

  // ---------------------------------------------------------------------------------------
  // Only a drained producer has nothing left to do

  predicate CallDrained(r: Request) {
    Returned(r) && forall i :: 0 <= i < |r.callbacks| ==> r.callbacks[i].Finished?
  }

  /** Every call has returned and every callback has finished. */
  predicate Drained(s: System) {
    forall q :: 0 <= q < |s.requests| ==> CallDrained(s.requests[q])
  }

  /** A call that has not returned can always move: it waits for nothing but the clock. */
  lemma {:induction false} CallCanMove(s: System, q: nat) returns (m: Move)
    requires q < |s.requests| && !Returned(s.requests[q])
    ensures Enabled(s, Act(q, m))
  {
    var r := s.requests[q];
    match r.pc
    case Admitting => m := Admit(Admits(s.ledger, |r.records|, TotalBytes(r.records)));
    case Submitting(_) => m := Take(|s.wrappers|);
    case Handing(_, _) => m := Hand;
    case Waiting => m := SeeTimeout;
    case TimedOut => m := OwnCas;
    case OwnRelease => m := ReturnOwn;
  }

  /** So can the callback of a record that has been submitted: the client owes it a call. */
  lemma {:induction false} CallbackCanMove(s: System, q: nat, i: nat) returns (m: Move)
    requires Inv(s) && q < |s.requests| && i < |s.requests[q].callbacks|
    requires !s.requests[q].callbacks[i].Idle? && !s.requests[q].callbacks[i].Finished?
    ensures Enabled(s, Act(q, m))
  {
    var r := s.requests[q];
    assert Held(s, OfCallback(q, i)).Some?;
    m := if r.callbacks[i].InFlight? then Deliver(i, Outcome(true, 0, 0, None)) else NextMove(s, r, i);
  }

  lemma {:induction false} SomethingCanMove(s: System) returns (step: Step)
    requires Inv(s) && !Drained(s)
    ensures step.Act? && Enabled(s, step)
  {
    var q :| 0 <= q < |s.requests| && !CallDrained(s.requests[q]);
    var m;
    if !Returned(s.requests[q]) {
      m := CallCanMove(s, q);
    } else {
      var i :| 0 <= i < |s.requests[q].callbacks| && !s.requests[q].callbacks[i].Finished?;
      m := CallbackCanMove(s, q, i);
    }
    step := Act(q, m);
  }

  lemma {:induction false} DrainedHoldsNothing(run: Run, maxRecords: int, maxBytes: int, k: nat)
    requires ValidRun(run, maxRecords, maxBytes) && k < |run.states| && Drained(run.states[k])
    ensures run.states[k].ledger.usedRecords == 0 && run.states[k].ledger.usedBytes == 0
  {
    forall q | 0 <= q < |run.states[k].requests|
      ensures Returned(run.states[k].requests[q]) && !HasReleasingCallback(run.states[k].requests[q])
    {
      assert CallDrained(run.states[k].requests[q]);
    }
    QuiescentLedgerIsZero(run, maxRecords, maxBytes, k);
  }

  lemma {:induction false} DrainedCannotMove(s: System, q: nat, m: Move)
    requires Drained(s)
    ensures !Enabled(s, Act(q, m))
  {
    if q < |s.requests| {
      assert CallDrained(s.requests[q]);
    }
  }

  /** Wherever a run gets stuck it is drained and holds nothing; with RunsEnd, every run without new
      calls ends there, whatever the scheduler does. */
  lemma {:induction false} StuckIffDrained(run: Run, maxRecords: int, maxBytes: int, k: nat)
    requires ValidRun(run, maxRecords, maxBytes) && k < |run.states|
    ensures (forall q: nat, m: Move :: !Enabled(run.states[k], Act(q, m))) <==> Drained(run.states[k])
    ensures Drained(run.states[k]) ==> run.states[k].ledger.usedRecords == 0 && run.states[k].ledger.usedBytes == 0
  {
    var s := run.states[k];
    RunKeepsInv(run, maxRecords, maxBytes, k);
    if Drained(s) {
      DrainedHoldsNothing(run, maxRecords, maxBytes, k);
      forall q: nat, m: Move
        ensures !Enabled(s, Act(q, m))
      {
        DrainedCannotMove(s, q, m);
      }
    } else {
      var step := SomethingCanMove(s);
      assert Enabled(s, Act(step.q, step.move));
    }
  }

  ghost function Last(run: Run): System
    requires run.states != []
  {
    run.states[|run.states| - 1]
  }

  /** The run goes on, by steps of the calls it already has. */
  predicate Continues(run: Run, longer: Run) {
    && |run.states| <= |longer.states| && longer.states[..|run.states|] == run.states
    && |run.steps| <= |longer.steps| && longer.steps[..|run.steps|] == run.steps
    && forall k :: |run.steps| <= k < |longer.steps| ==> longer.steps[k].Act?
  }

  lemma {:induction false} OneMoreStep(run: Run, maxRecords: int, maxBytes: int, step: Step) returns (longer: Run)
    requires ValidRun(run, maxRecords, maxBytes) && Enabled(Last(run), step)
    ensures ValidRun(longer, maxRecords, maxBytes) && Last(longer) == Next(Last(run), step)
    ensures longer == Run(run.states + [Next(Last(run), step)], run.steps + [step])
  {
    longer := Run(run.states + [Next(Last(run), step)], run.steps + [step]);
  }

  /** Every reachable state can be run to the end without new calls: all calls returned, all
      callbacks finished, nothing in use. */
  lemma {:induction false} EveryRunCanDrain(run: Run, maxRecords: int, maxBytes: int) returns (longer: Run)
    requires ValidRun(run, maxRecords, maxBytes)
    ensures ValidRun(longer, maxRecords, maxBytes) && Continues(run, longer)
    ensures Drained(Last(longer)) && Last(longer).ledger.usedRecords == 0 && Last(longer).ledger.usedBytes == 0
    decreases Measure(Last(run))
  {
    RunKeepsInv(run, maxRecords, maxBytes, |run.states| - 1);
    if Drained(Last(run)) {
      DrainedHoldsNothing(run, maxRecords, maxBytes, |run.states| - 1);
      longer := run;
    } else {
      var step := SomethingCanMove(Last(run));
      StepDecreases(Last(run), step);
      var next := OneMoreStep(run, maxRecords, maxBytes, step);
      longer := EveryRunCanDrain(next, maxRecords, maxBytes);
      ContinuesFurther(run, step, next, longer);
    }
  }

  lemma {:induction false} ContinuesFurther(run: Run, step: Step, next: Run, longer: Run)
    requires step.Act? && |next.states| == |run.states| + 1 && next.states[..|run.states|] == run.states
    requires next.steps == run.steps + [step] && Continues(next, longer)
    ensures Continues(run, longer)
  {
    assert longer.states[..|run.states|] == longer.states[..|next.states|][..|run.states|];
    assert longer.steps[..|run.steps|] == longer.steps[..|next.steps|][..|run.steps|];
    forall k | |run.steps| <= k < |longer.steps|
      ensures longer.steps[k].Act?
    {
      assert k == |run.steps| ==> longer.steps[k] == longer.steps[..|next.steps|][k];
    }
  }

  // ---------------------------------------------------------------------------------------
  // What the client still holds

  predicate IsInFlight(c: CallbackPc) {
    c.InFlight?
  }

  /** Records of this call that the client has not called back for. */
  function InFlightOf(r: Request): nat {
    CountIf(r.callbacks, IsInFlight)
  }

  /** Those of them that admission has stopped counting. */
  function OrphansOf(r: Request): nat {
    if r.releases > 0 then InFlightOf(r) else 0
  }

  lemma {:induction false} SumBound(rs: seq<Request>)
    requires forall q :: 0 <= q < |rs| ==> RequestInv(rs[q])
    ensures Sum(rs, InFlightOf) <= Sum(rs, HeldRecords) + Sum(rs, OrphansOf)
  {
    if rs != [] {
      CountIfExtremes(rs[0].callbacks, IsInFlight);
      assert forall q :: 0 <= q < |rs| - 1 ==> rs[1..][q] == rs[q + 1];
      SumBound(rs[1..]);
    }
  }

  /** Call by call, in every reachable state: the client holds more of a call's records than admission
      counts exactly when the call has returned a timeout and has records in flight; those are its
      orphans. */
  lemma {:induction false} OrphansAreTimedOut(run: Run, maxRecords: int, maxBytes: int, k: nat, q: nat)
    requires ValidRun(run, maxRecords, maxBytes) && k < |run.states| && q < |run.states[k].requests|
    ensures
      var r := run.states[k].requests[q];
      && (InFlightOf(r) > HeldRecords(r) <==> r.pc.ReturnedTimeout? && InFlightOf(r) > 0)
      && OrphansOf(r) == (if r.pc.ReturnedTimeout? then InFlightOf(r) else 0)
  {
    RunKeepsInv(run, maxRecords, maxBytes, k);
    var r := run.states[k].requests[q];
    CountIfExtremes(r.callbacks, IsInFlight);
    CountIfExtremes(r.callbacks, Decremented);
    CountIfExtremes(r.callbacks, Closing);
    CountIfExtremes(r.callbacks, Releasing);
  }

  /** In every reachable state the records in flight are at most those in use plus the orphans. */
  lemma {:induction false} InFlightIsBounded(run: Run, maxRecords: int, maxBytes: int, k: nat)
    requires ValidRun(run, maxRecords, maxBytes) && k < |run.states|
    ensures
      var s := run.states[k];
      && Sum(s.requests, InFlightOf) <= s.ledger.usedRecords + Sum(s.requests, OrphansOf)
      && (maxRecords > 0 ==> Sum(s.requests, InFlightOf) <= maxRecords + Sum(s.requests, OrphansOf))
  {
    RunKeepsInv(run, maxRecords, maxBytes, k);
    SumBound(run.states[k].requests);
  }

  // ---------------------------------------------------------------------------------------
  // Runs that leave records in flight

  /** The last call of a run makes one more move. */
  lemma {:induction false} LastCallMoves(run: Run, maxRecords: int, maxBytes: int, base: seq<Request>, r: Request, m: Move)
    returns (longer: Run)
    requires ValidRun(run, maxRecords, maxBytes) && Last(run).requests == base + [r]
    requires Enabled(Last(run), Act(|base|, m))
    ensures ValidRun(longer, maxRecords, maxBytes) && Last(longer).requests == base + [LocalNext(r, m)]
    ensures Last(longer).ledger == LedgerNext(Last(run).ledger, r, m) && Last(longer).closed == Last(run).closed
  {
    longer := OneMoreStep(run, maxRecords, maxBytes, Act(|base|, m));
    assert (base + [r])[|base| := LocalNext(r, m)] == base + [LocalNext(r, m)];
  }

  /** A call with one empty record, handed over in wrapper w. */
  function Handed(records: seq<Record>, w: nat, pc: ProducePc, released: bool, releases: nat): Request
    requires |records| == 1 && !pc.Submitting? && !pc.Handing? && !pc.Admitting?
  {
    Call(records, pc, [InFlight(w)], NewCore(1).(released := released), [None], releases)
  }

  /** The same call before it has been handed over. */
  function Taken(records: seq<Record>, pc: ProducePc): Request
    requires |records| == 1 && (pc == Submitting(0) || (pc.Handing? && pc.next == 0))
  {
    Call(records, pc, [Idle], NewCore(1), [None], 0)
  }

  /** An open producer with this ledger. */
  ghost predicate Ready(run: Run, l: Ledger) {
    ValidRun(run, l.maxRecords, l.maxBytes) && Last(run).ledger == l && !Last(run).closed
  }

  /** There is room for one more record, and no byte is in use. */
  predicate HasRoom(l: Ledger) {
    l.usedBytes == 0 && (l.maxRecords > 0 ==> l.usedRecords < l.maxRecords) && l.usedRecords >= 0
  }

  lemma {:induction false} AdmitTaken(records: seq<Record>)
    requires |records| == 1
    ensures LocalNext(NewCall(records, Admitting), Admit(true)) == Taken(records, Submitting(0))
  {
    var r := LocalNext(NewCall(records, Admitting), Admit(true));
    assert r.callbacks == [Idle] && r.outcomes == [None];
  }

  lemma {:induction false} AdmitLast(run: Run, l: Ledger, records: seq<Record>) returns (longer: Run)
    requires Ready(run, l) && HasRoom(l) && |records| == 1 && TotalBytes(records) == 0
    ensures Ready(longer, l.(usedRecords := l.usedRecords + 1))
    ensures Last(longer).requests == Last(run).requests + [Taken(records, Submitting(0))]
  {
    AdmitTaken(records);
    longer := OneMoreStep(run, l.maxRecords, l.maxBytes, Arrive(records));
    longer := LastCallMoves(longer, l.maxRecords, l.maxBytes, Last(run).requests, NewCall(records, Admitting), Admit(true));
  }

  lemma {:induction false} HandOne(run: Run, l: Ledger, records: seq<Record>) returns (longer: Run, w: nat)
    requires Ready(run, l) && HasRoom(l) && |records| == 1 && TotalBytes(records) == 0
    ensures Ready(longer, l.(usedRecords := l.usedRecords + 1))
    ensures Last(longer).requests == Last(run).requests + [Handed(records, w, Waiting, false, 0)]
  {
    var base := Last(run).requests;
    longer := AdmitLast(run, l, records);
    w := |Last(longer).wrappers|;
    longer := LastCallMoves(longer, l.maxRecords, l.maxBytes, base, Taken(records, Submitting(0)), Take(w));
    longer := LastCallMoves(longer, l.maxRecords, l.maxBytes, base, Taken(records, Handing(0, w)), Hand);
    assert LocalNext(Taken(records, Handing(0, w)), Hand).callbacks == [InFlight(w)];
  }

  lemma {:induction false} CountOneMore(base: seq<Request>, r: Request)
    requires |r.callbacks| == 1 && r.callbacks[0].InFlight?
    ensures Sum(base + [r], InFlightOf) == Sum(base, InFlightOf) + 1
    ensures Sum(base + [r], OrphansOf) == Sum(base, OrphansOf) + (if r.releases > 0 then 1 else 0)
  {
    assert InFlightOf(r) == 1 + CountIf(r.callbacks[1..], IsInFlight) == 1;
    SumAppend(base, r, InFlightOf);
    SumAppend(base, r, OrphansOf);
  }

  /** One more record is handed over and its caller waits. */
  lemma {:induction false} LiveOne(run: Run, l: Ledger, records: seq<Record>) returns (longer: Run)
    requires Ready(run, l) && HasRoom(l) && |records| == 1 && TotalBytes(records) == 0
    ensures Ready(longer, l.(usedRecords := l.usedRecords + 1))
    ensures Sum(Last(longer).requests, InFlightOf) == Sum(Last(run).requests, InFlightOf) + 1
    ensures Sum(Last(longer).requests, OrphansOf) == Sum(Last(run).requests, OrphansOf)
  {
    var w;
    longer, w := HandOne(run, l, records);
    CountOneMore(Last(run).requests, Handed(records, w, Waiting, false, 0));
  }

  /** One more record is handed over and its caller gives up. */
  lemma {:induction false} OrphanOne(run: Run, l: Ledger, records: seq<Record>) returns (longer: Run)
    requires Ready(run, l) && HasRoom(l) && |records| == 1 && TotalBytes(records) == 0
    ensures Ready(longer, l)
    ensures Sum(Last(longer).requests, InFlightOf) == Sum(Last(run).requests, InFlightOf) + 1
    ensures Sum(Last(longer).requests, OrphansOf) == Sum(Last(run).requests, OrphansOf) + 1
  {
    var base := Last(run).requests;
    var w;
    longer, w := HandOne(run, l, records);
    longer := LastCallMoves(longer, l.maxRecords, l.maxBytes, base, Handed(records, w, Waiting, false, 0), SeeTimeout);
    longer := LastCallMoves(longer, l.maxRecords, l.maxBytes, base, Handed(records, w, TimedOut, false, 0), OwnCas);
    longer := LastCallMoves(longer, l.maxRecords, l.maxBytes, base, Handed(records, w, OwnRelease, true, 0), ReturnOwn);
    var r := Handed(records, w, ReturnedTimeout, true, 1);
    assert Last(longer).requests == base + [r];
    CountOneMore(base, r);
  }

  const EMPTY_RECORD: Record := Record("t", None, None, [], None)

  lemma {:induction false} EmptyRecordHasNoBytes(records: seq<Record>)
    requires records == [EMPTY_RECORD]
    ensures TotalBytes(records) == 0
  {
    assert records[..0] == [];
  }

  /** Under any limits, any number of orphans can be in flight beside any number of live records that
      the limit admits. */
  lemma {:induction false} OrphansBesideLive(maxRecords: int, maxBytes: int, orphans: nat, live: nat) returns (run: Run)
    requires maxRecords > 0 ==> live <= maxRecords
    ensures Ready(run, Ledger(maxRecords, maxBytes, live, 0))
    ensures Sum(Last(run).requests, InFlightOf) == orphans + live && Sum(Last(run).requests, OrphansOf) == orphans
    decreases orphans + live
  {
    var records := [EMPTY_RECORD];
    EmptyRecordHasNoBytes(records);
    if live > 0 {
      run := OrphansBesideLive(maxRecords, maxBytes, orphans, live - 1);
      run := LiveOne(run, Ledger(maxRecords, maxBytes, live - 1, 0), records);
    } else if orphans > 0 {
      run := OrphansBesideLive(maxRecords, maxBytes, orphans - 1, 0);
      run := OrphanOne(run, Ledger(maxRecords, maxBytes, 0, 0), records);
    } else {
      run := Run([Initial(maxRecords, maxBytes)], []);
    }
  }

  /** "The client never holds more than the record limit" is false of the code, without bound: under
      any limits, for every n there is a run that leaves n records in flight and nothing in use. */
  lemma {:induction false} InFlightIsUnbounded(maxRecords: int, maxBytes: int, n: nat) returns (run: Run)
    ensures ValidRun(run, maxRecords, maxBytes) && Last(run).ledger == Ledger(maxRecords, maxBytes, 0, 0)
    ensures Sum(Last(run).requests, InFlightOf) == n
  {
    run := OrphansBesideLive(maxRecords, maxBytes, n, 0);
  }

  /** No reachable state with this many orphans has more than `most` records in flight. */
  ghost predicate NeverMoreInFlight(maxRecords: int, maxBytes: int, orphans: nat, most: int) {
    forall run: Run, k: nat ::
      ValidRun(run, maxRecords, maxBytes) && k < |run.states| && Sum(run.states[k].requests, OrphansOf) == orphans ==>
        Sum(run.states[k].requests, InFlightOf) <= most
  }

  /** Exactly: with a record limit, a bound on the records in flight holds in every reachable state
      with so many orphans if and only if it is at least the limit plus the orphans. */
  lemma {:induction false} NeverMoreInFlightIff(maxRecords: int, maxBytes: int, orphans: nat, most: int)
    requires maxRecords > 0
    ensures NeverMoreInFlight(maxRecords, maxBytes, orphans, most) <==> maxRecords + orphans <= most
  {
    if maxRecords + orphans <= most {
      forall run: Run, k: nat |
        ValidRun(run, maxRecords, maxBytes) && k < |run.states| && Sum(run.states[k].requests, OrphansOf) == orphans
        ensures Sum(run.states[k].requests, InFlightOf) <= most
      {
        InFlightIsBounded(run, maxRecords, maxBytes, k);
      }
    } else {
      var run := OrphansBesideLive(maxRecords, maxBytes, orphans, maxRecords);
      assert run.states[|run.states| - 1] == Last(run);
    }
  }

  /** So the client never holds more records than the limit exactly where no call that timed out
      still has one in flight. */
  lemma {:induction false} LimitBoundsInFlightIff(maxRecords: int, maxBytes: int, orphans: nat)
    requires maxRecords > 0
    ensures NeverMoreInFlight(maxRecords, maxBytes, orphans, maxRecords) <==> orphans == 0
  {
    NeverMoreInFlightIff(maxRecords, maxBytes, orphans, maxRecords);
  }

  // ---------------------------------------------------------------------------------------
  // The timeout race, concretely

  /** The client calls back, and the callback writes its slot. */
  lemma {:induction false} WriteOne(run: Run, records: seq<Record>, w: nat) returns (longer: Run, r: Request)
    requires Ready(run, Ledger(1, 0, 1, 0)) && |records| == 1
    requires Last(run).requests == [Handed(records, w, Waiting, false, 0)]
    ensures Ready(longer, Ledger(1, 0, 1, 0)) && Last(longer).requests == [r]
    ensures r.records == records && r.callbacks == [Written(w)] && r.pc == Waiting && r.core.remaining == 1 && !r.core.released
  {
    var deliver := Deliver(0, Outcome(true, 3, 7, None));
    r := Handed(records, w, Waiting, false, 0);
    longer := LastCallMoves(run, 1, 0, [], r, deliver);
    r := LocalNext(r, deliver);
    RunKeepsInv(longer, 1, 0, |longer.states| - 1);
    assert Held(Last(longer), OfCallback(0, 0)) == Some(w);
    var write := WriteSlot(0, Last(longer).wrappers[w]);
    longer := LastCallMoves(longer, 1, 0, [], r, write);
    r := LocalNext(r, write);
  }

  /** "A caller that timed out holds no capacity" is false of the code: here the last callback wins
      the compare-and-swap, the caller returns, and Admission.Release has not run. */
  lemma {:induction false} TimeoutCanReturnStillHolding() returns (run: Run)
    ensures ValidRun(run, 1, 0) && |Last(run).requests| == 1
    ensures Last(run).requests[0].pc.ReturnedTimeout? && Last(run).ledger.usedRecords == 1
  {
    var records := [EMPTY_RECORD];
    EmptyRecordHasNoBytes(records);
    var w, r;
    run, w := HandOne(Run([Initial(1, 0)], []), Ledger(1, 0, 0, 0), records);
    run, r := WriteOne(run, records, w);
    run := LastCallMoves(run, 1, 0, [], r, Decrement(0));
    r := LocalNext(r, Decrement(0));
    run := LastCallMoves(run, 1, 0, [], r, Cas(0));
    r := LocalNext(r, Cas(0));
    run := LastCallMoves(run, 1, 0, [], r, SeeTimeout);
    run := LastCallMoves(run, 1, 0, [], LocalNext(r, SeeTimeout), OwnCas);
  }
}
