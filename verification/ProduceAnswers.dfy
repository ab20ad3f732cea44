/** What Produce answers, told from the steps of the run alone: which calls are refused and why, which
    return results, and which give up. */
module ProduceAnswers {
  import opened Base
  import opened Records
  import opened Limits
  import opened ProduceProtocol
  import opened ProduceInvariants
  import opened ProduceTheorems

  /** The two return values of Produce. */
  datatype Answer = Results(results: seq<ProduceResult>) | ClientClosed | ProducerOverloaded | ContextDone

  /** What a call that has returned handed to its caller. */
  function AnswerOf(r: Request): Option<Answer> {
    match r.pc
    case RefusedClosed => Some(ClientClosed)
    case ReturnedEmpty => Some(Results([]))
    case Overloaded => Some(ProducerOverloaded)
    case ReturnedResults => Some(Results(r.core.results))
    case ReturnedTimeout => Some(ContextDone)
    case _ => None
  }

  // ---------------------------------------------------------------------------------------
  // The moves a call has made

  predicate IsRefusal(m: Move) { m == Admit(false) }
  predicate IsGrant(m: Move) { m == Admit(true) }
  predicate IsSeeDone(m: Move) { m.SeeDone? }
  predicate IsSeeTimeout(m: Move) { m.SeeTimeout? }

  predicate GaveUp(pc: ProducePc) {
    pc.TimedOut? || pc.OwnRelease? || pc.ReturnedTimeout?
  }

  predicate NeverAsked(pc: ProducePc) {
    pc.RefusedClosed? || pc.ReturnedEmpty? || pc.Admitting? || pc.Overloaded?
  }

  /** How often each of the four deciding moves has been made, for a call that stands here. */
  predicate Decided(pc: ProducePc, refusals: nat, grants: nat, dones: nat, timeouts: nat) {
    && refusals == (if pc.Overloaded? then 1 else 0)
    && grants == (if NeverAsked(pc) then 0 else 1)
    && dones == (if pc.ReturnedResults? then 1 else 0)
    && timeouts == (if GaveUp(pc) then 1 else 0)
  }

  function One(b: bool): nat {
    if b then 1 else 0
  }

  lemma {:induction false} MoveDecides(r: Request, m: Move, refusals: nat, grants: nat, dones: nat, timeouts: nat)
    requires LocallyEnabled(r, m) && Decided(r.pc, refusals, grants, dones, timeouts)
    ensures Decided(LocalNext(r, m).pc, refusals + One(IsRefusal(m)), grants + One(IsGrant(m)),
                    dones + One(IsSeeDone(m)), timeouts + One(IsSeeTimeout(m)))
    ensures LocalNext(r, m).records == r.records
    ensures LocalNext(r, m).pc.RefusedClosed? <==> r.pc.RefusedClosed?
    ensures LocalNext(r, m).pc.ReturnedEmpty? <==> r.pc.ReturnedEmpty?
  {
  }

  ghost predicate DecidedBy(pc: ProducePc, steps: seq<Step>, q: nat) {
    Decided(pc, Moves(steps, q, IsRefusal), Moves(steps, q, IsGrant), Moves(steps, q, IsSeeDone), Moves(steps, q, IsSeeTimeout))
  }

  /** A call that is not there yet has made no move. */
  ghost predicate HasNotMoved(steps: seq<Step>, q: nat) {
    DecidedBy(Admitting, steps, q)
  }

  lemma {:induction false} OneMoreStep(steps: seq<Step>, k: nat, q: nat)
    requires k < |steps|
    ensures
      var own := steps[k].Act? && steps[k].q == q;
      && Moves(steps[..k + 1], q, IsRefusal) == Moves(steps[..k], q, IsRefusal) + One(own && IsRefusal(steps[k].move))
      && Moves(steps[..k + 1], q, IsGrant) == Moves(steps[..k], q, IsGrant) + One(own && IsGrant(steps[k].move))
      && Moves(steps[..k + 1], q, IsSeeDone) == Moves(steps[..k], q, IsSeeDone) + One(own && IsSeeDone(steps[k].move))
      && Moves(steps[..k + 1], q, IsSeeTimeout) == Moves(steps[..k], q, IsSeeTimeout) + One(own && IsSeeTimeout(steps[k].move))
  {
    MovesStep(steps, k, q, IsRefusal);
    MovesStep(steps, k, q, IsGrant);
    MovesStep(steps, k, q, IsSeeDone);
    MovesStep(steps, k, q, IsSeeTimeout);
  }

  lemma {:induction false} NewCallHasNotMoved(s: System, step: Step, q: nat)
    requires Enabled(s, step) && |s.requests| <= q < |Next(s, step).requests|
    ensures step.Arrive? && q == |s.requests|
    ensures
      var r := Next(s, step).requests[q];
      && r.records == step.records
      && r.pc == if s.closed then RefusedClosed else if step.records == [] then ReturnedEmpty else Admitting
  {
  }

  lemma {:induction false} StandingIsDecided(run: Run, maxRecords: int, maxBytes: int, k: nat, q: nat)
    requires ValidRun(run, maxRecords, maxBytes) && k < |run.states|
    ensures q < |run.states[k].requests| ==> DecidedBy(run.states[k].requests[q].pc, run.steps[..k], q)
    ensures q >= |run.states[k].requests| ==> HasNotMoved(run.steps[..k], q)
    decreases k
  {
    if k > 0 {
      StandingIsDecided(run, maxRecords, maxBytes, k - 1, q);
      if q < |run.states[k - 1].requests| {
        PresentCallStep(run, maxRecords, maxBytes, k - 1, q);
      } else {
        AbsentCallStep(run, maxRecords, maxBytes, k - 1, q);
      }
    }
  }

  lemma {:induction false} PresentCallStep(run: Run, maxRecords: int, maxBytes: int, k: nat, q: nat)
    requires ValidRun(run, maxRecords, maxBytes) && k < |run.steps| && q < |run.states[k].requests|
    requires DecidedBy(run.states[k].requests[q].pc, run.steps[..k], q)
    ensures q < |run.states[k + 1].requests| && DecidedBy(run.states[k + 1].requests[q].pc, run.steps[..k + 1], q)
  {
    var s, step := run.states[k], run.steps[k];
    OneMoreStep(run.steps, k, q);
    StepTouchesOneRequest(s, step, q);
    if step.Act? && step.q == q {
      DecidedStep(s.requests[q], step.move, run.steps[..k], q);
    }
  }

  lemma {:induction false} AbsentCallStep(run: Run, maxRecords: int, maxBytes: int, k: nat, q: nat)
    requires ValidRun(run, maxRecords, maxBytes) && k < |run.steps| && q >= |run.states[k].requests|
    requires HasNotMoved(run.steps[..k], q)
    ensures q < |run.states[k + 1].requests| ==> DecidedBy(run.states[k + 1].requests[q].pc, run.steps[..k + 1], q)
    ensures q >= |run.states[k + 1].requests| ==> HasNotMoved(run.steps[..k + 1], q)
  {
    OneMoreStep(run.steps, k, q);
    if q < |run.states[k + 1].requests| {
      NewCallHasNotMoved(run.states[k], run.steps[k], q);
    }
  }

  lemma {:induction false} DecidedStep(r: Request, m: Move, steps: seq<Step>, q: nat)
    requires LocallyEnabled(r, m) && DecidedBy(r.pc, steps, q)
    ensures Decided(LocalNext(r, m).pc, Moves(steps, q, IsRefusal) + One(IsRefusal(m)), Moves(steps, q, IsGrant) + One(IsGrant(m)),
                    Moves(steps, q, IsSeeDone) + One(IsSeeDone(m)), Moves(steps, q, IsSeeTimeout) + One(IsSeeTimeout(m)))
  {
    MoveDecides(r, m, Moves(steps, q, IsRefusal), Moves(steps, q, IsGrant), Moves(steps, q, IsSeeDone), Moves(steps, q, IsSeeTimeout));
  }

  // ---------------------------------------------------------------------------------------
  // Arrivals

  function Arrivals(steps: seq<Step>): nat {
    if steps == [] then 0 else Arrivals(steps[..|steps| - 1]) + One(steps[|steps| - 1].Arrive?)
  }

  /** Step j is the call that becomes request q. */
  ghost predicate ArrivesAs(run: Run, j: nat, q: nat) {
    j < |run.steps| && run.steps[j].Arrive? && Arrivals(run.steps[..j]) == q
  }

  /** Close had been called before step j. */
  ghost predicate ClosedBefore(run: Run, j: nat) {
    exists c :: 0 <= c < j && c < |run.steps| && run.steps[c] == CloseProducer
  }

  lemma {:induction false} StateCountsSteps(run: Run, maxRecords: int, maxBytes: int, k: nat)
    requires ValidRun(run, maxRecords, maxBytes) && k < |run.states|
    ensures |run.states[k].requests| == Arrivals(run.steps[..k])
    ensures run.states[k].closed <==> ClosedBefore(run, k)
    decreases k
  {
    if k > 0 {
      StateCountsSteps(run, maxRecords, maxBytes, k - 1);
      assert run.steps[..k][..k - 1] == run.steps[..k - 1];
      assert run.states[k] == Next(run.states[k - 1], run.steps[k - 1]);
    }
  }

  /** The call has these records, and was refused as closed or empty exactly if this says so. */
  predicate StandsAs(r: Request, records: seq<Record>, closed: bool) {
    && r.records == records
    && (r.pc.RefusedClosed? <==> closed)
    && (r.pc.ReturnedEmpty? <==> r.records == [] && !closed)
  }

  lemma {:induction false} StandingIsKept(run: Run, maxRecords: int, maxBytes: int, k: nat, q: nat)
    requires ValidRun(run, maxRecords, maxBytes) && k < |run.steps| && q < |run.states[k].requests|
    ensures q < |run.states[k + 1].requests|
    ensures
      var r, r' := run.states[k].requests[q], run.states[k + 1].requests[q];
      r'.records == r.records && (r'.pc.RefusedClosed? <==> r.pc.RefusedClosed?) && (r'.pc.ReturnedEmpty? <==> r.pc.ReturnedEmpty?)
  {
    var s, step := run.states[k], run.steps[k];
    StepTouchesOneRequest(s, step, q);
    if step.Act? && step.q == q {
      StandingIsDecided(run, maxRecords, maxBytes, k, q);
      MoveDecides(s.requests[q], step.move, Moves(run.steps[..k], q, IsRefusal), Moves(run.steps[..k], q, IsGrant),
                  Moves(run.steps[..k], q, IsSeeDone), Moves(run.steps[..k], q, IsSeeTimeout));
    }
  }

  /** A call keeps the records it arrived with; only its arrival can refuse it as closed or empty. */
  lemma {:induction false} ArrivalDecides(run: Run, maxRecords: int, maxBytes: int, j: nat, k: nat, q: nat)
    requires ValidRun(run, maxRecords, maxBytes) && ArrivesAs(run, j, q) && j < k < |run.states|
    ensures q < |run.states[k].requests|
    ensures StandsAs(run.states[k].requests[q], run.steps[j].records, ClosedBefore(run, j))
    decreases k
  {
    if k == j + 1 {
      StateCountsSteps(run, maxRecords, maxBytes, j);
      NewCallHasNotMoved(run.states[j], run.steps[j], q);
    } else {
      ArrivalDecides(run, maxRecords, maxBytes, j, k - 1, q);
      StandingIsKept(run, maxRecords, maxBytes, k - 1, q);
    }
  }

  /** Request q has made a move of this kind before state k. */
  ghost predicate Made(run: Run, k: nat, q: nat, p: Move -> bool) {
    exists j :: 0 <= j < k && j < |run.steps| && run.steps[j].Act? && run.steps[j].q == q && p(run.steps[j].move)
  }

  lemma {:induction false} MovesIffMade(run: Run, k: nat, q: nat, p: Move -> bool)
    requires k <= |run.steps|
    ensures Moves(run.steps[..k], q, p) > 0 <==> Made(run, k, q, p)
  {
    if k > 0 {
      MovesIffMade(run, k - 1, q, p);
      MovesStep(run.steps, k - 1, q, p);
    }
  }

  // ---------------------------------------------------------------------------------------
  // The answers

  /** For every call of every run, from its steps: it is answered "closed" exactly when Close came
      before it, "overloaded" exactly when admission refused it, with a timeout only when it saw its
      context end, and with results exactly when it was empty or saw `done`. So a call with records
      never gets the empty list, and results are always one per record. */
  lemma {:induction false} AnswersAreHistory(run: Run, maxRecords: int, maxBytes: int, j: nat, k: nat, q: nat)
    requires ValidRun(run, maxRecords, maxBytes) && ArrivesAs(run, j, q) && j < k < |run.states|
    ensures q < |run.states[k].requests|
    ensures
      var r := run.states[k].requests[q];
      && r.records == run.steps[j].records
      && (AnswerOf(r) == Some(ClientClosed) <==> ClosedBefore(run, j))
      && (AnswerOf(r) == Some(ProducerOverloaded) <==> Made(run, k, q, IsRefusal))
      && (AnswerOf(r) == Some(ContextDone) ==> Made(run, k, q, IsSeeTimeout))
      && (AnswerOf(r).Some? && AnswerOf(r).value.Results? <==>
            (r.records == [] && !ClosedBefore(run, j)) || Made(run, k, q, IsSeeDone))
      && (AnswerOf(r).Some? && AnswerOf(r).value.Results? ==> |AnswerOf(r).value.results| == |r.records|)
      && (Made(run, k, q, IsSeeTimeout) && AnswerOf(r).Some? ==> AnswerOf(r) == Some(ContextDone))
  {
    ArrivalDecides(run, maxRecords, maxBytes, j, k, q);
    StandingIsDecided(run, maxRecords, maxBytes, k, q);
    MovesIffMade(run, k, q, IsRefusal);
    MovesIffMade(run, k, q, IsSeeDone);
    MovesIffMade(run, k, q, IsSeeTimeout);
    if run.states[k].requests[q].pc.ReturnedResults? {
      ReturnedResultsAreOutcomes(run, maxRecords, maxBytes, k, q);
    }
  }

  /** Admission refuses a call exactly when it would have exceeded a limit that is on. */
  lemma {:induction false} RefusalsExceedALimit(run: Run, maxRecords: int, maxBytes: int, k: nat, q: nat, ok: bool)
    requires ValidRun(run, maxRecords, maxBytes) && k < |run.steps| && run.steps[k] == Act(q, Admit(ok))
    ensures q < |run.states[k].requests|
    ensures
      var l, records := run.states[k].ledger, run.states[k].requests[q].records;
      ok <==> && (maxRecords > 0 ==> l.usedRecords + |records| <= maxRecords)
              && (maxBytes > 0 ==> l.usedBytes + TotalBytes(records) <= maxBytes)
  {
    RunKeepsInv(run, maxRecords, maxBytes, k);
  }

  /** Whatever has happened, a record in flight can be called back next, with any outcome. */
  lemma {:induction false} CallbacksComeInAnyOrder(s: System, q: nat, i: nat, o: Outcome)
    ensures Enabled(s, Act(q, Deliver(i, o))) <==>
            q < |s.requests| && i < |s.requests[q].callbacks| && s.requests[q].callbacks[i].InFlight?
  {
  }
}
