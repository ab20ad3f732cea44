/** What every step of the produce protocol keeps. */
module ProduceInvariants {
  import opened Base
  import opened Records
  import opened Limits
  import opened ProduceProtocol

  // ---------------------------------------------------------------------------------------
  // Counting callbacks, summing requests

  function CountIf(cs: seq<CallbackPc>, p: CallbackPc -> bool): nat {
    if cs == [] then 0 else (if p(cs[0]) then 1 else 0) + CountIf(cs[1..], p)
  }

  lemma {:induction false} CountIfUpdate(cs: seq<CallbackPc>, i: nat, c: CallbackPc, p: CallbackPc -> bool)
    requires i < |cs|
    ensures CountIf(cs[i := c], p) == CountIf(cs, p) - (if p(cs[i]) then 1 else 0) + (if p(c) then 1 else 0)
  {
    if i == 0 {
      assert cs[0 := c][1..] == cs[1..];
    } else {
      assert cs[i := c][1..] == cs[1..][i - 1 := c];
      CountIfUpdate(cs[1..], i - 1, c, p);
    }
  }

  lemma {:induction false} CountIfExtremes(cs: seq<CallbackPc>, p: CallbackPc -> bool)
    ensures CountIf(cs, p) <= |cs|
    ensures CountIf(cs, p) == 0 <==> forall i :: 0 <= i < |cs| ==> !p(cs[i])
    ensures CountIf(cs, p) == |cs| <==> forall i :: 0 <= i < |cs| ==> p(cs[i])
  {
    if cs != [] {
      CountIfExtremes(cs[1..], p);
      assert forall i :: 0 < i < |cs| ==> cs[i] == cs[1..][i - 1];
      assert forall i :: 0 <= i < |cs| - 1 ==> cs[1..][i] == cs[i + 1];
    }
  }

  function Sum(rs: seq<Request>, weight: Request -> nat): nat {
    if rs == [] then 0 else weight(rs[0]) + Sum(rs[1..], weight)
  }

  lemma {:induction false} SumUpdate(rs: seq<Request>, q: nat, r: Request, weight: Request -> nat)
    requires q < |rs|
    ensures Sum(rs[q := r], weight) == Sum(rs, weight) - weight(rs[q]) + weight(r)
    ensures weight(rs[q]) <= Sum(rs, weight)
  {
    if q == 0 {
      assert rs[0 := r][1..] == rs[1..];
    } else {
      assert rs[q := r][1..] == rs[1..][q - 1 := r];
      SumUpdate(rs[1..], q - 1, r, weight);
    }
  }

  lemma {:induction false} SumAppend(rs: seq<Request>, r: Request, weight: Request -> nat)
    ensures Sum(rs + [r], weight) == Sum(rs, weight) + weight(r)
  {
    if rs == [] {
      assert rs + [r] == [r];
    } else {
      assert (rs + [r])[1..] == rs[1..] + [r];
      SumAppend(rs[1..], r, weight);
    }
  }

  lemma {:induction false} SumZero(rs: seq<Request>, weight: Request -> nat)
    ensures Sum(rs, weight) == 0 <==> forall q :: 0 <= q < |rs| ==> weight(rs[q]) == 0
  {
    if rs != [] {
      SumZero(rs[1..], weight);
      assert forall q :: 0 < q < |rs| ==> rs[q] == rs[1..][q - 1];
      assert forall q :: 0 <= q < |rs| - 1 ==> rs[1..][q] == rs[q + 1];
    }
  }

  // ---------------------------------------------------------------------------------------
  // One request

  /** The callback has done its remaining.Add(-1). */
  predicate Decremented(c: CallbackPc) {
    c.LastCas? || c.LastRelease? || c.LastClose? || c.Wiping? || c.Putting? || c.Finished?
  }

  /** The callback saw zero and has not yet closed `done`. */
  predicate Closing(c: CallbackPc) {
    c.LastCas? || c.LastRelease? || c.LastClose?
  }

  /** The callback won the compare-and-swap and has not yet called Admission.Release. */
  predicate Releasing(c: CallbackPc) {
    c.LastRelease?
  }

  predicate SlotWritten(c: CallbackPc) {
    c.Written? || Decremented(c)
  }

  predicate Admitted(r: Request) {
    !(r.pc.RefusedClosed? || r.pc.ReturnedEmpty? || r.pc.Admitting? || r.pc.Overloaded?)
  }

  /** How many records the submit loop has handed to the client. */
  function Submitted(r: Request): nat {
    if r.pc.Submitting? || r.pc.Handing? then r.pc.next else |r.callbacks|
  }

  /** The outcome is recorded at delivery, and the slot is exactly that outcome once written. */
  predicate SlotOk(c: CallbackPc, outcome: Option<Outcome>, slot: ProduceResult) {
    && (outcome.Some? <==> !c.Idle? && !c.InFlight?)
    && (c.Called? ==> c.present == outcome.value.present && c.err == outcome.value.err)
    && (SlotWritten(c) ==> slot == ResultOf(outcome.value))
  }

  /** Who holds the right to give the capacity back, and who may close `done`. */
  ghost predicate TokensOk(r: Request) {
    && r.core.remaining == |r.callbacks| - CountIf(r.callbacks, Decremented)
    && CountIf(r.callbacks, Closing) + r.core.closes == (if r.core.remaining == 0 then 1 else 0)
    && r.releases + CountIf(r.callbacks, Releasing) + (if r.pc.OwnRelease? then 1 else 0)
       == (if r.core.released then 1 else 0)
    && (r.core.closes > 0 ==> r.core.released)
    && (r.pc.ReturnedTimeout? ==> r.core.released)
    && (r.core.released && r.core.remaining > 0 ==> r.pc.OwnRelease? || r.pc.ReturnedTimeout?)
    && (r.pc.ReturnedResults? ==> r.core.closes > 0)
    && forall i :: 0 <= i < |r.callbacks| && r.callbacks[i].LastClose? ==> r.core.released
  }

  ghost predicate RequestInv(r: Request) {
    if !Admitted(r) then r == NewCall(r.records, r.pc)
    else
      && r.records != []
      && |r.callbacks| == |r.records|
      && (forall i :: 0 <= i < |r.callbacks| ==> (r.callbacks[i].Idle? <==> Submitted(r) <= i))
      && (forall i :: 0 <= i < |r.callbacks| ==> SlotOk(r.callbacks[i], r.outcomes[i], r.core.results[i]))
      && TokensOk(r)
  }

  /** The wrapper a callback reads still carries what the client reported for its record. */
  predicate ReadsOwnOutcome(r: Request, m: Move) {
    m.WriteSlot? && m.i < |r.callbacks| && r.outcomes[m.i].Some? ==>
      m.seen.partition == r.outcomes[m.i].value.partition && m.seen.offset == r.outcomes[m.i].value.offset
  }

  lemma {:induction false} CountsUpdate(cs: seq<CallbackPc>, i: nat, c: CallbackPc)
    requires i < |cs|
    ensures CountIf(cs[i := c], Decremented) == CountIf(cs, Decremented) - (if Decremented(cs[i]) then 1 else 0) + (if Decremented(c) then 1 else 0)
    ensures CountIf(cs[i := c], Closing) == CountIf(cs, Closing) - (if Closing(cs[i]) then 1 else 0) + (if Closing(c) then 1 else 0)
    ensures CountIf(cs[i := c], Releasing) == CountIf(cs, Releasing) - (if Releasing(cs[i]) then 1 else 0) + (if Releasing(c) then 1 else 0)
    ensures Closing(cs[i]) ==> CountIf(cs, Closing) > 0
    ensures Releasing(cs[i]) ==> CountIf(cs, Releasing) > 0
  {
    CountIfUpdate(cs, i, c, Decremented);
    CountIfUpdate(cs, i, c, Closing);
    CountIfUpdate(cs, i, c, Releasing);
    CountIfExtremes(cs, Closing);
    CountIfExtremes(cs, Releasing);
  }

  lemma {:induction false} AdmitKeepsRequest(r: Request)
    requires RequestInv(r) && r.pc.Admitting?
    ensures RequestInv(LocalNext(r, Admit(true)))
  {
    var r' := LocalNext(r, Admit(true));
    CountIfExtremes(r'.callbacks, Decremented);
    CountIfExtremes(r'.callbacks, Closing);
    CountIfExtremes(r'.callbacks, Releasing);
  }

  /** Steps of the goroutine running Produce. */
  lemma {:induction false} ProduceMoveKeepsRequest(r: Request, m: Move)
    requires RequestInv(r) && LocallyEnabled(r, m)
    requires m.Take? || m.Hand? || m.SeeDone? || m.SeeTimeout? || m.OwnCas? || m.ReturnOwn?
    ensures RequestInv(LocalNext(r, m))
  {
    if m.Hand? {
      CountsUpdate(r.callbacks, r.pc.next, InFlight(r.pc.held));
    }
  }

  lemma {:induction false} DeliverKeepsRequest(r: Request, m: Move)
    requires RequestInv(r) && LocallyEnabled(r, m) && m.Deliver?
    ensures RequestInv(LocalNext(r, m))
  {
    CountsUpdate(r.callbacks, m.i, LocalNext(r, m).callbacks[m.i]);
  }

  lemma {:induction false} WriteSlotKeepsRequest(r: Request, m: Move)
    requires RequestInv(r) && LocallyEnabled(r, m) && m.WriteSlot? && ReadsOwnOutcome(r, m)
    ensures RequestInv(LocalNext(r, m))
  {
    CountsUpdate(r.callbacks, m.i, LocalNext(r, m).callbacks[m.i]);
  }

  lemma {:induction false} DecrementKeepsRequest(r: Request, m: Move)
    requires RequestInv(r) && LocallyEnabled(r, m) && m.Decrement?
    ensures RequestInv(LocalNext(r, m))
  {
    CountsUpdate(r.callbacks, m.i, LocalNext(r, m).callbacks[m.i]);
    CountIfExtremes(r.callbacks, Decremented);
  }

  /** The last callback gives the capacity back, unless the timed-out caller already has. */
  lemma {:induction false} LastReleaseKeepsRequest(r: Request, m: Move)
    requires RequestInv(r) && LocallyEnabled(r, m) && (m.Cas? || m.ReturnLast?)
    ensures RequestInv(LocalNext(r, m))
  {
    CountsUpdate(r.callbacks, m.i, LocalNext(r, m).callbacks[m.i]);
  }

  lemma {:induction false} CloseDoneKeepsRequest(r: Request, m: Move)
    requires RequestInv(r) && LocallyEnabled(r, m) && m.CloseDone?
    ensures RequestInv(LocalNext(r, m))
  {
    CountsUpdate(r.callbacks, m.i, LocalNext(r, m).callbacks[m.i]);
  }

  lemma {:induction false} RecycleKeepsRequest(r: Request, m: Move)
    requires RequestInv(r) && LocallyEnabled(r, m) && (m.Wipe? || m.Put?)
    ensures RequestInv(LocalNext(r, m))
  {
    CountsUpdate(r.callbacks, m.i, LocalNext(r, m).callbacks[m.i]);
  }

  lemma {:induction false} MoveKeepsRequest(r: Request, m: Move)
    requires RequestInv(r) && LocallyEnabled(r, m) && ReadsOwnOutcome(r, m)
    ensures RequestInv(LocalNext(r, m))
  {
    if m.Admit? {
      if m.ok { AdmitKeepsRequest(r); }
    } else if m.Deliver? {
      DeliverKeepsRequest(r, m);
    } else if m.WriteSlot? {
      WriteSlotKeepsRequest(r, m);
    } else if m.Decrement? {
      DecrementKeepsRequest(r, m);
    } else if m.Cas? || m.ReturnLast? {
      LastReleaseKeepsRequest(r, m);
    } else if m.CloseDone? {
      CloseDoneKeepsRequest(r, m);
    } else if m.Wipe? || m.Put? {
      RecycleKeepsRequest(r, m);
    } else {
      ProduceMoveKeepsRequest(r, m);
    }
  }

  // ---------------------------------------------------------------------------------------
  // The ledger

  /** Records a request still holds: acquired, and Admission.Release not yet run for it. */
  function HeldRecords(r: Request): nat {
    if Admitted(r) && r.releases == 0 then |r.records| else 0
  }

  function HeldBytes(r: Request): nat {
    if Admitted(r) && r.releases == 0 then TotalBytes(r.records) else 0
  }

  ghost predicate LedgerInv(s: System) {
    && s.ledger.usedRecords == Sum(s.requests, HeldRecords)
    && s.ledger.usedBytes == Sum(s.requests, HeldBytes)
    && InBounds(s.ledger)
  }

  /** The clamp to zero in Admission.Release does nothing on this step. */
  predicate ClampsIdle(s: System, step: Step)
    requires Enabled(s, step)
  {
    step.Act? && (step.move.ReturnOwn? || step.move.ReturnLast?) ==>
      var r := s.requests[step.q];
      && Next(s, step).ledger.usedRecords == s.ledger.usedRecords - |r.records|
      && Next(s, step).ledger.usedBytes == s.ledger.usedBytes - TotalBytes(r.records)
  }

  /** A request starts holding when admitted and stops exactly at its one Admission.Release. */
  lemma {:induction false} MoveChangesHolding(r: Request, m: Move)
    requires RequestInv(r) && LocallyEnabled(r, m)
    ensures m.Admit? ==> !Admitted(r) && (Admitted(LocalNext(r, m)) <==> m.ok) && LocalNext(r, m).releases == 0
    ensures !m.Admit? ==> Admitted(r) && Admitted(LocalNext(r, m))
    ensures m.ReturnOwn? || m.ReturnLast? ==> r.releases == 0 && LocalNext(r, m).releases == 1
    ensures !m.Admit? && !m.ReturnOwn? && !m.ReturnLast? ==> LocalNext(r, m).releases == r.releases
    ensures LocalNext(r, m).records == r.records
  {
    CountIfExtremes(r.callbacks, Releasing);
  }

  lemma {:induction false} ActKeepsLedger(s: System, q: nat, m: Move)
    requires LedgerInv(s) && Enabled(s, Act(q, m)) && RequestInv(s.requests[q])
    ensures LedgerInv(Next(s, Act(q, m))) && ClampsIdle(s, Act(q, m))
  {
    var r := s.requests[q];
    SumUpdate(s.requests, q, LocalNext(r, m), HeldRecords);
    SumUpdate(s.requests, q, LocalNext(r, m), HeldBytes);
    MoveChangesHolding(r, m);
  }

  lemma {:induction false} StepKeepsLedger(s: System, step: Step)
    requires LedgerInv(s) && Enabled(s, step)
    requires forall q :: 0 <= q < |s.requests| ==> RequestInv(s.requests[q])
    ensures LedgerInv(Next(s, step)) && ClampsIdle(s, step)
  {
    if step.Act? {
      ActKeepsLedger(s, step.q, step.move);
    } else if step.Arrive? {
      var r := Next(s, step).requests[|s.requests|];
      SumAppend(s.requests, r, HeldRecords);
      SumAppend(s.requests, r, HeldBytes);
    }
  }

  // ---------------------------------------------------------------------------------------
  // The wrapper pool

  /** Who may hold a wrapper: a submit loop between Take and Hand, or one record's callback. */
  datatype Holder = OfProduce(q: nat) | OfCallback(q: nat, i: nat)

  function Held(s: System, h: Holder): Option<nat> {
    if h.q >= |s.requests| then None
    else
      var r := s.requests[h.q];
      match h
      case OfProduce(_) => if r.pc.Handing? then Some(r.pc.held) else None
      case OfCallback(_, i) =>
        if i >= |r.callbacks| || r.callbacks[i].Idle? || r.callbacks[i].Finished? then None
        else Some(r.callbacks[i].w)
  }

  /** Topic, key, value and headers are this record's. */
  predicate Carries(w: Wrapper, r: Record) {
    w.topic == r.topic && w.key == r.key && w.value == r.value && w.headers == r.headers
  }

  predicate ContentOk(s: System, h: Holder)
    requires Held(s, h).Some? && Held(s, h).value < |s.wrappers|
  {
    var r := s.requests[h.q];
    var w := s.wrappers[Held(s, h).value];
    match h
    case OfProduce(_) => w == Filled(r.records[r.pc.next])
    case OfCallback(_, i) =>
      var c := r.callbacks[i];
      if c.InFlight? then w == Filled(r.records[i])
      else if c.Putting? then w == BLANK
      else
        && Carries(w, r.records[i])
        && r.outcomes[i].Some?
        && w.partition == r.outcomes[i].value.partition
        && w.offset == r.outcomes[i].value.offset
  }

  /** No wrapper is both free and held, none has two holders, each holds its own record. */
  ghost predicate PoolInv(s: System) {
    && (forall w :: w in s.pool ==> w < |s.wrappers|)
    && (forall h :: Held(s, h).Some? ==>
          Held(s, h).value < |s.wrappers| && Held(s, h).value !in s.pool && ContentOk(s, h))
    && (forall g, h :: Held(s, g).Some? && Held(s, g) == Held(s, h) ==> g == h)
  }

  lemma {:induction false} TakeKeepsPool(s: System, q: nat, m: Move)
    requires PoolInv(s) && Enabled(s, Act(q, m)) && m.Take?
    ensures PoolInv(Next(s, Act(q, m)))
  {
    var s' := Next(s, Act(q, m));
    assert Held(s, OfProduce(q)) == None && Held(s', OfProduce(q)) == Some(m.w);
    forall h | h != OfProduce(q)
      ensures Held(s', h) == Held(s, h)
      ensures Held(s, h).Some? ==> Held(s, h).value != m.w && ContentOk(s', h)
    {
    }
  }

  lemma {:induction false} HandKeepsPool(s: System, q: nat, m: Move)
    requires PoolInv(s) && Enabled(s, Act(q, m)) && m.Hand? && RequestInv(s.requests[q])
    ensures PoolInv(Next(s, Act(q, m)))
  {
    var s' := Next(s, Act(q, m));
    var i := s.requests[q].pc.next;
    assert Held(s, OfCallback(q, i)) == None && Held(s', OfProduce(q)) == None;
    assert Held(s', OfCallback(q, i)) == Held(s, OfProduce(q));
    forall h | h != OfProduce(q) && h != OfCallback(q, i)
      ensures Held(s', h) == Held(s, h)
      ensures Held(s, h).Some? ==> ContentOk(s', h)
    {
    }
  }

  /** The client and the final wipe change only the memory their own callback holds. */
  lemma {:induction false} MemoryMoveKeepsPool(s: System, q: nat, m: Move)
    requires PoolInv(s) && Enabled(s, Act(q, m)) && (m.Deliver? || m.Wipe?)
    ensures PoolInv(Next(s, Act(q, m)))
  {
    var s' := Next(s, Act(q, m));
    var own := OfCallback(q, m.i);
    assert Held(s, own).Some? && ContentOk(s, own);
    assert Held(s', own) == Held(s, own);
    forall h | h != own
      ensures Held(s', h) == Held(s, h)
      ensures Held(s, h).Some? ==> Held(s, h) != Held(s, own) && ContentOk(s', h)
    {
    }
  }

  lemma {:induction false} PutKeepsPool(s: System, q: nat, m: Move)
    requires PoolInv(s) && Enabled(s, Act(q, m)) && m.Put?
    ensures PoolInv(Next(s, Act(q, m)))
  {
    var s' := Next(s, Act(q, m));
    var own := OfCallback(q, m.i);
    assert Held(s, own).Some? && Held(s', own) == None;
    forall h | h != own
      ensures Held(s', h) == Held(s, h)
      ensures Held(s, h).Some? ==> Held(s, h) != Held(s, own) && ContentOk(s', h)
    {
    }
  }

  /** A callback between delivery and wipe keeps its wrapper and touches no memory. */
  lemma {:induction false} QuietCallbackKeepsPool(s: System, q: nat, m: Move)
    requires PoolInv(s) && Enabled(s, Act(q, m))
    requires m.WriteSlot? || m.Decrement? || m.Cas? || m.ReturnLast? || m.CloseDone?
    ensures PoolInv(Next(s, Act(q, m)))
  {
    var s' := Next(s, Act(q, m));
    assert Held(s, OfCallback(q, m.i)).Some?;
    forall h
      ensures Held(s', h) == Held(s, h)
      ensures Held(s, h).Some? ==> ContentOk(s', h)
    {
    }
  }

  lemma {:induction false} SystemMoveKeepsPool(s: System, step: Step)
    requires PoolInv(s) && Enabled(s, step) && !step.Act?
    ensures PoolInv(Next(s, step))
  {
    var s' := Next(s, step);
    forall h
      ensures Held(s', h) == Held(s, h)
      ensures Held(s, h).Some? ==> ContentOk(s', h)
    {
    }
  }

  lemma {:induction false} ControlKeepsPool(s: System, q: nat, m: Move)
    requires PoolInv(s) && Enabled(s, Act(q, m)) && RequestInv(s.requests[q])
    requires m.Admit? || m.SeeDone? || m.SeeTimeout? || m.OwnCas? || m.ReturnOwn?
    ensures PoolInv(Next(s, Act(q, m)))
  {
    var s' := Next(s, Act(q, m));
    forall h
      ensures Held(s', h) == Held(s, h)
      ensures Held(s, h).Some? ==> ContentOk(s', h)
    {
    }
  }

  // ---------------------------------------------------------------------------------------
  // All together

  ghost predicate Inv(s: System) {
    && (forall q :: 0 <= q < |s.requests| ==> RequestInv(s.requests[q]))
    && LedgerInv(s)
    && PoolInv(s)
  }

  lemma {:induction false} StepKeepsPool(s: System, step: Step)
    requires Inv(s) && Enabled(s, step)
    ensures PoolInv(Next(s, step))
  {
    if !step.Act? {
      SystemMoveKeepsPool(s, step);
    } else if step.move.Take? {
      TakeKeepsPool(s, step.q, step.move);
    } else if step.move.Hand? {
      HandKeepsPool(s, step.q, step.move);
    } else if step.move.Admit? || step.move.SeeDone? || step.move.SeeTimeout? || step.move.OwnCas? || step.move.ReturnOwn? {
      ControlKeepsPool(s, step.q, step.move);
    } else if step.move.Deliver? || step.move.Wipe? {
      MemoryMoveKeepsPool(s, step.q, step.move);
    } else if step.move.Put? {
      PutKeepsPool(s, step.q, step.move);
    } else {
      QuietCallbackKeepsPool(s, step.q, step.move);
    }
  }

  lemma {:induction false} StepKeepsRequests(s: System, step: Step)
    requires Inv(s) && Enabled(s, step)
    ensures forall q :: 0 <= q < |Next(s, step).requests| ==> RequestInv(Next(s, step).requests[q])
  {
    if step.Act? {
      var r := s.requests[step.q];
      if step.move.WriteSlot? {
        assert ContentOk(s, OfCallback(step.q, step.move.i));
      }
      MoveKeepsRequest(r, step.move);
    }
  }

  lemma {:induction false} StepKeepsInv(s: System, step: Step)
    requires Inv(s) && Enabled(s, step)
    ensures Inv(Next(s, step)) && ClampsIdle(s, step)
  {
    StepKeepsRequests(s, step);
    StepKeepsLedger(s, step);
    StepKeepsPool(s, step);
  }

  lemma {:induction false} RunKeepsInv(run: Run, maxRecords: int, maxBytes: int, k: nat)
    requires ValidRun(run, maxRecords, maxBytes) && k < |run.states|
    ensures Inv(run.states[k])
    ensures run.states[k].ledger.maxRecords == maxRecords && run.states[k].ledger.maxBytes == maxBytes
    decreases k
  {
    if k > 0 {
      RunKeepsInv(run, maxRecords, maxBytes, k - 1);
      StepKeepsInv(run.states[k - 1], run.steps[k - 1]);
    }
  }
}
