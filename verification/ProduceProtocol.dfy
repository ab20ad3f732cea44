/** Produce, its per-record callbacks and its timeout, as one transition system
    (internal/producer/franz/producer.go with internal/limits/admission.go).

    Any number of Produce calls run concurrently over one admission ledger and one pool of
    record wrappers. Every step below is one atomic operation of the source: a pool access, a
    hand-over to the Kafka client, a slot write, the decrement of `remaining`, the
    compare-and-swap of `released`, `Admission.Release`, `close(done)`, a select branch. The
    client may deliver callbacks in any order, before the submit loop has ended or after the
    caller has timed out; the one assumption about it is that each record handed over is
    called back exactly once, which is the `InFlight` guard of `Deliver`. */
module ProduceProtocol {
  import opened Base
  import opened Records
  import opened Limits

  // ---------------------------------------------------------------------------------------
  // Data

  /** The client's record wrapper; only the fields the producer reads or writes. */
  datatype Wrapper = Wrapper(
    topic: string,
    key: Option<string>,
    value: Option<string>,
    headers: seq<Header>,
    partition: int,
    offset: int)

  const UNSPECIFIED_PARTITION: int := -1
  const BLANK: Wrapper := Wrapper("", None, None, [], 0, 0)
  const ZERO_RESULT: ProduceResult := ProduceResult(0, 0, None, None)

  /** acquireRecord: overwrite every field, partition -1 when the caller named none. */
  function Filled(r: Record): Wrapper {
    Wrapper(r.topic, r.key, r.value, r.headers,
            if r.partition.Some? then r.partition.value else UNSPECIFIED_PARTITION, 0)
  }

  /** What the client reports for one record; `present` is false for a nil record pointer. */
  datatype Outcome = Outcome(present: bool, partition: int, offset: int, err: Option<Message>)

  /** The result a caller must see for a record with this outcome. */
  function ResultOf(o: Outcome): ProduceResult {
    ProduceResult(
      if o.present then o.partition else 0,
      if o.present then o.offset else 0,
      if o.err.Some? then Some(RECORD_ERROR_CODE) else None,
      o.err)
  }

  /** What complete computes: it reads the wrapper, not the outcome. */
  function ResultRead(rec: Option<Wrapper>, err: Option<Message>): ProduceResult {
    ProduceResult(
      if rec.Some? then rec.value.partition else 0,
      if rec.Some? then rec.value.offset else 0,
      if err.Some? then Some(RECORD_ERROR_CODE) else None,
      err)
  }

  /** The mutable fields of requestState; `closes` counts close(done), which may run only once. */
  datatype Core = Core(results: seq<ProduceResult>, remaining: int, released: bool, closes: nat)

  function NewCore(n: nat): Core {
    Core(seq(n, _ => ZERO_RESULT), n, false, 0)
  }

  /** Where the goroutine running Produce stands. */
  datatype ProducePc =
    | RefusedClosed | ReturnedEmpty | Admitting | Overloaded
    | Submitting(next: nat) | Handing(next: nat, held: nat)
    | Waiting | TimedOut | OwnRelease
    | ReturnedResults | ReturnedTimeout

  /** Where the callback of one record stands. */
  datatype CallbackPc =
    | Idle | InFlight(w: nat) | Called(w: nat, present: bool, err: Option<Message>)
    | Written(w: nat) | LastCas(w: nat) | LastRelease(w: nat) | LastClose(w: nat)
    | Wiping(w: nat) | Putting(w: nat) | Finished

  /** One Produce call. `outcomes` and `releases` are history: what the client reported for each
      record, and how often this call's capacity went back to the ledger. */
  datatype Call = Call(
    records: seq<Record>,
    pc: ProducePc,
    callbacks: seq<CallbackPc>,
    core: Core,
    outcomes: seq<Option<Outcome>>,
    releases: nat)

  predicate Shaped(c: Call) {
    && |c.callbacks| == |c.core.results| == |c.outcomes|
    && (c.callbacks == [] || |c.callbacks| == |c.records|)
    && (c.pc.Submitting? || c.pc.Handing? ==> c.pc.next < |c.callbacks|)
    && (c.pc.Admitting? ==> c.records != [])
  }

  type Request = c: Call | Shaped(c) witness NewCall([], ReturnedEmpty)

  function NewCall(records: seq<Record>, pc: ProducePc): Call {
    Call(records, pc, [], Core([], 0, false, 0), [], 0)
  }

  datatype System = System(ledger: Ledger, closed: bool, requests: seq<Request>, wrappers: seq<Wrapper>, pool: set<nat>)

  function Initial(maxRecords: int, maxBytes: int): System {
    System(Ledger(maxRecords, maxBytes, 0, 0), false, [], [], {})
  }

  // ---------------------------------------------------------------------------------------
  // Steps

  /** One atomic operation of one request; `i` is the index of the record whose callback moves. */
  datatype Move =
    | Admit(ok: bool) | Take(w: nat) | Hand
    | SeeDone | SeeTimeout | OwnCas | ReturnOwn
    | Deliver(i: nat, outcome: Outcome) | WriteSlot(i: nat, seen: Wrapper) | Decrement(i: nat)
    | Cas(i: nat) | ReturnLast(i: nat) | CloseDone(i: nat) | Wipe(i: nat) | Put(i: nat)

  /** `DropPooled`: a sync.Pool may forget a free wrapper at any time. */
  datatype Step = Arrive(records: seq<Record>) | Act(q: nat, move: Move) | DropPooled(w: nat) | CloseProducer

  predicate CallbackAt(r: Request, i: nat, p: CallbackPc -> bool) {
    i < |r.callbacks| && p(r.callbacks[i])
  }

  /** Guards that depend on the request alone. */
  predicate LocallyEnabled(r: Request, m: Move) {
    match m
    case Admit(_) => r.pc.Admitting?
    case Take(_) => r.pc.Submitting?
    case Hand => r.pc.Handing?
    case SeeDone => r.pc.Waiting? && r.core.closes > 0
    case SeeTimeout => r.pc.Waiting?
    case OwnCas => r.pc.TimedOut?
    case ReturnOwn => r.pc.OwnRelease?
    case Deliver(i, _) => CallbackAt(r, i, (c: CallbackPc) => c.InFlight?)
    case WriteSlot(i, _) => CallbackAt(r, i, (c: CallbackPc) => c.Called?)
    case Decrement(i) => CallbackAt(r, i, (c: CallbackPc) => c.Written?)
    case Cas(i) => CallbackAt(r, i, (c: CallbackPc) => c.LastCas?)
    case ReturnLast(i) => CallbackAt(r, i, (c: CallbackPc) => c.LastRelease?)
    case CloseDone(i) => CallbackAt(r, i, (c: CallbackPc) => c.LastClose?)
    case Wipe(i) => CallbackAt(r, i, (c: CallbackPc) => c.Wiping?)
    case Put(i) => CallbackAt(r, i, (c: CallbackPc) => c.Putting?)
  }

  predicate Enabled(s: System, step: Step) {
    match step
    case Arrive(_) => true
    case DropPooled(w) => w in s.pool
    case CloseProducer => true
    case Act(q, m) =>
      && q < |s.requests|
      && var r := s.requests[q];
      && LocallyEnabled(r, m)
      && (m.Admit? ==> m.ok == Admits(s.ledger, |r.records|, TotalBytes(r.records)))
      && (m.Take? ==> m.w in s.pool || m.w == |s.wrappers|)
      && (m.WriteSlot? ==> var w := r.callbacks[m.i].w; w < |s.wrappers| && m.seen == s.wrappers[w])
  }

  /** s.results[index] = result */
  function CoreWrite(c: Core, i: nat, result: ProduceResult): Core
    requires i < |c.results|
  {
    c.(results := c.results[i := result])
  }

  /** s.remaining.Add(-1) */
  function CoreDecrement(c: Core): Core {
    c.(remaining := c.remaining - 1)
  }

  /** s.released.CompareAndSwap(false, true) */
  function CoreCas(c: Core): Core {
    c.(released := true)
  }

  /** close(s.done) */
  function CoreClose(c: Core): Core {
    c.(closes := c.closes + 1)
  }

  function SetCallback(r: Request, i: nat, c: CallbackPc): Request
    requires i < |r.callbacks|
  {
    r.(callbacks := r.callbacks[i := c])
  }

  function LocalNext(r: Request, m: Move): Request
    requires LocallyEnabled(r, m)
  {
    match m
    case Admit(ok) =>
      if !ok then r.(pc := Overloaded)
      else
        var n := |r.records|;
        Call(r.records, Submitting(0), seq(n, _ => Idle), NewCore(n), seq(n, _ => None), 0)
    case Take(w) => r.(pc := Handing(r.pc.next, w))
    case Hand =>
      SetCallback(r, r.pc.next, InFlight(r.pc.held)).(
        pc := if r.pc.next + 1 == |r.callbacks| then Waiting else Submitting(r.pc.next + 1))
    case SeeDone => r.(pc := ReturnedResults)
    case SeeTimeout => r.(pc := TimedOut)
    case OwnCas => r.(core := CoreCas(r.core), pc := if r.core.released then ReturnedTimeout else OwnRelease)
    case ReturnOwn => r.(pc := ReturnedTimeout, releases := r.releases + 1)
    case Deliver(i, o) =>
      SetCallback(r, i, Called(r.callbacks[i].w, o.present, o.err)).(outcomes := r.outcomes[i := Some(o)])
    case WriteSlot(i, seen) =>
      var c := r.callbacks[i];
      SetCallback(r, i, Written(c.w)).(
        core := CoreWrite(r.core, i, ResultRead(if c.present then Some(seen) else None, c.err)))
    case Decrement(i) =>
      var w := r.callbacks[i].w;
      SetCallback(r, i, if r.core.remaining - 1 == 0 then LastCas(w) else Wiping(w)).(core := CoreDecrement(r.core))
    case Cas(i) =>
      var w := r.callbacks[i].w;
      SetCallback(r, i, if r.core.released then LastClose(w) else LastRelease(w)).(core := CoreCas(r.core))
    case ReturnLast(i) => SetCallback(r, i, LastClose(r.callbacks[i].w)).(releases := r.releases + 1)
    case CloseDone(i) => SetCallback(r, i, Wiping(r.callbacks[i].w)).(core := CoreClose(r.core))
    case Wipe(i) => SetCallback(r, i, Putting(r.callbacks[i].w))
    case Put(i) => SetCallback(r, i, Finished)
  }

  function LedgerNext(l: Ledger, r: Request, m: Move): Ledger {
    match m
    case Admit(ok) => if ok then Acquire(l, |r.records|, TotalBytes(r.records)) else l
    case ReturnOwn => Return(l, |r.records|, TotalBytes(r.records))
    case ReturnLast(_) => Return(l, |r.records|, TotalBytes(r.records))
    case _ => l
  }

  /** Wrapper memory: filled on Take, given partition and offset by the client, blanked on Wipe. */
  function WrappersNext(ws: seq<Wrapper>, r: Request, m: Move): seq<Wrapper>
    requires LocallyEnabled(r, m)
  {
    match m
    case Take(w) =>
      var filled := Filled(r.records[r.pc.next]);
      if w < |ws| then ws[w := filled] else ws + [filled]
    case Deliver(i, o) =>
      var w := r.callbacks[i].w;
      if w < |ws| then ws[w := ws[w].(partition := o.partition, offset := o.offset)] else ws
    case Wipe(i) =>
      var w := r.callbacks[i].w;
      if w < |ws| then ws[w := BLANK] else ws
    case _ => ws
  }

  function PoolNext(pool: set<nat>, r: Request, m: Move): set<nat>
    requires LocallyEnabled(r, m)
  {
    match m
    case Take(w) => pool - {w}
    case Put(i) => pool + {r.callbacks[i].w}
    case _ => pool
  }

  function Next(s: System, step: Step): System
    requires Enabled(s, step)
  {
    match step
    case Arrive(records) =>
      var pc := if s.closed then RefusedClosed else if records == [] then ReturnedEmpty else Admitting;
      s.(requests := s.requests + [NewCall(records, pc)])
    case DropPooled(w) => s.(pool := s.pool - {w})
    case CloseProducer => s.(closed := true)
    case Act(q, m) =>
      var r := s.requests[q];
      System(
        LedgerNext(s.ledger, r, m),
        s.closed,
        s.requests[q := LocalNext(r, m)],
        WrappersNext(s.wrappers, r, m),
        PoolNext(s.pool, r, m))
  }

  /** A run: any interleaving of enabled steps from an empty producer. */
  datatype Run = Run(states: seq<System>, steps: seq<Step>)

  ghost predicate ValidRun(run: Run, maxRecords: int, maxBytes: int) {
    && |run.states| == |run.steps| + 1
    && run.states[0] == Initial(maxRecords, maxBytes)
    && forall k :: 0 <= k < |run.steps| ==>
         Enabled(run.states[k], run.steps[k]) && run.states[k + 1] == Next(run.states[k], run.steps[k])
  }
}
