/** requestState and the record pool as the objects the source mutates. Their methods perform the
    steps of ProduceProtocol on real fields: the same `Core*` functions specify both. */
module RequestState {
  import opened Base
  import opened Records
  import opened Limits
  import opened ProduceProtocol

  /** complete, run without interruption: write the slot, decrement, and if that was the last
      record take the release flag and close `done`. */
  function Completed(c: Core, i: nat, result: ProduceResult): Core
    requires i < |c.results|
  {
    var c' := CoreDecrement(CoreWrite(c, i, result));
    if c'.remaining == 0 then CoreClose(CoreCas(c')) else c'
  }

  /** The same callback as moves of the protocol. */
  function CompleteMoves(r: Request, i: nat, seen: Wrapper): Request
    requires LocallyEnabled(r, WriteSlot(i, seen))
  {
    var r2 := LocalNext(LocalNext(r, WriteSlot(i, seen)), Decrement(i));
    if r2.core.remaining != 0 then r2
    else
      var r3 := LocalNext(r2, Cas(i));
      LocalNext(if r2.core.released then r3 else LocalNext(r3, ReturnLast(i)), CloseDone(i))
  }

  /** And what the same moves do to the ledger, move by move. */
  function CompleteLedger(l: Ledger, r: Request, i: nat, seen: Wrapper): Ledger
    requires LocallyEnabled(r, WriteSlot(i, seen))
  {
    var r1 := LocalNext(r, WriteSlot(i, seen));
    var r2 := LocalNext(r1, Decrement(i));
    var l2 := LedgerNext(LedgerNext(l, r, WriteSlot(i, seen)), r1, Decrement(i));
    if r2.core.remaining != 0 then l2
    else
      var r3 := LocalNext(r2, Cas(i));
      var l3 := LedgerNext(l2, r2, Cas(i));
      if r2.core.released then LedgerNext(l3, r3, CloseDone(i))
      else LedgerNext(LedgerNext(l3, r3, ReturnLast(i)), LocalNext(r3, ReturnLast(i)), CloseDone(i))
  }

  /** What the moves must add up to: the fields of `Completed`, and capacity handed back exactly
      when this callback is the last one and nobody has released before. */
  ghost predicate Refines(l: Ledger, r: Request, i: nat, seen: Wrapper)
    requires LocallyEnabled(r, WriteSlot(i, seen))
  {
    var c := r.callbacks[i];
    var r' := CompleteMoves(r, i, seen);
    && CompleteLedger(l, r, i, seen)
         == (if r.core.remaining == 1 && !r.core.released then Return(l, |r.records|, TotalBytes(r.records)) else l)
    && r'.core == Completed(r.core, i, ResultRead(if c.present then Some(seen) else None, c.err))
    && r'.releases == r.releases + (if r.core.remaining == 1 && !r.core.released then 1 else 0)
    && r'.callbacks == r.callbacks[i := Wiping(c.w)]
    && r'.pc == r.pc
  }

  /** Steps on one callback do not pile up: only the last control state stays. */
  lemma {:induction false} LastCallbackStays(cs: seq<CallbackPc>, i: nat, a: CallbackPc, b: CallbackPc)
    requires i < |cs|
    ensures cs[i := a][i := b] == cs[i := b]
  {
  }

  lemma {:induction false} OrdinaryCallbackRefines(l: Ledger, r: Request, i: nat, seen: Wrapper)
    requires LocallyEnabled(r, WriteSlot(i, seen)) && r.core.remaining != 1
    ensures Refines(l, r, i, seen)
  {
    var w := r.callbacks[i].w;
    var r1 := LocalNext(r, WriteSlot(i, seen));
    assert r1.callbacks == r.callbacks[i := Written(w)];
    assert LocalNext(r1, Decrement(i)).callbacks == r1.callbacks[i := Wiping(w)];
    LastCallbackStays(r.callbacks, i, Written(w), Wiping(w));
  }

  /** The last callback, when the caller has released already. */
  lemma {:induction false} LateLastCallbackRefines(l: Ledger, r: Request, i: nat, seen: Wrapper)
    requires LocallyEnabled(r, WriteSlot(i, seen)) && r.core.remaining == 1 && r.core.released
    ensures Refines(l, r, i, seen)
  {
    var w := r.callbacks[i].w;
    var r2 := LocalNext(LocalNext(r, WriteSlot(i, seen)), Decrement(i));
    assert r2.callbacks == r.callbacks[i := LastCas(w)];
    assert LocalNext(r2, Cas(i)).callbacks == r.callbacks[i := LastClose(w)];
    LastCallbackStays(r.callbacks, i, LastClose(w), Wiping(w));
  }

  /** The last callback, when it is the one that gives the capacity back. */
  lemma {:induction false} LastCallbackRefines(l: Ledger, r: Request, i: nat, seen: Wrapper)
    requires LocallyEnabled(r, WriteSlot(i, seen)) && r.core.remaining == 1 && !r.core.released
    ensures Refines(l, r, i, seen)
  {
    var w := r.callbacks[i].w;
    var r2 := LocalNext(LocalNext(r, WriteSlot(i, seen)), Decrement(i));
    assert r2.callbacks == r.callbacks[i := LastCas(w)];
    var r3 := LocalNext(r2, Cas(i));
    assert r3.callbacks == r.callbacks[i := LastRelease(w)];
    assert LocalNext(r3, ReturnLast(i)).callbacks == r.callbacks[i := LastClose(w)];
    LastCallbackStays(r.callbacks, i, LastClose(w), Wiping(w));
  }

  /** The method refines the moves, on the fields and on the ledger. */
  lemma {:induction false} CompleteRefinesMoves(l: Ledger, r: Request, i: nat, seen: Wrapper)
    requires LocallyEnabled(r, WriteSlot(i, seen))
    ensures Refines(l, r, i, seen)
  {
    if r.core.remaining != 1 {
      OrdinaryCallbackRefines(l, r, i, seen);
    } else if r.core.released {
      LateLastCallbackRefines(l, r, i, seen);
    } else {
      LastCallbackRefines(l, r, i, seen);
    }
  }

  class PendingRequest {
    var remaining: int
    const results: array<ProduceResult>
    var doneClosed: bool
    const admit: Admission
    const records: Int64
    const bytes: Int64
    var released: bool

    ghost function Value(): Core
      reads this, results
    {
      Core(results[..], remaining, released, if doneClosed then 1 else 0)
    }

    /** newRequestState */
    constructor (n: nat, admit: Admission, records: Int64, bytes: Int64)
      ensures Value() == NewCore(n) && fresh(results)
      ensures this.admit == admit && this.records == records && this.bytes == bytes
    {
      results := new ProduceResult[n](_ => ZERO_RESULT);
      remaining := n;
      doneClosed, released := false, false;
      this.admit, this.records, this.bytes := admit, records, bytes;
      new;
      assert results[..] == seq(n, _ => ZERO_RESULT);
    }

    /** Gives the capacity back at most once however often it is called. */
    method Release()
      modifies this`released, admit
      ensures Value() == CoreCas(old(Value()))
      ensures admit.Value() == if old(released) then old(admit.Value()) else Return64(old(admit.Value()), records, bytes)
    {
      if !released {
        released := true;
        admit.Release(records, bytes);
      }
    }

    /** `requires`: closing a closed channel panics; CallbacksNeverStick shows it never happens. */
    method Complete(index: nat, rec: Option<Wrapper>, err: Option<Message>)
      requires index < results.Length
      requires remaining == 1 ==> !doneClosed
      modifies this, results, admit
      ensures Value() == Completed(old(Value()), index, ResultRead(rec, err))
      ensures admit.Value() ==
              if old(remaining) == 1 && !old(released) then Return64(old(admit.Value()), records, bytes)
              else old(admit.Value())
    {
      var result := ProduceResult(0, 0, None, err);
      if rec.Some? {
        result := result.(partition := rec.value.partition, offset := rec.value.offset);
      }
      if err.Some? {
        result := result.(errorCode := Some(RECORD_ERROR_CODE));
      }
      results[index] := result;
      assert results[..] == old(results[..])[index := result];
      remaining := remaining - 1;
      if remaining == 0 {
        Release();
        doneClosed := true;
      }
    }
  }

  /** A pooled client record: every field is overwritten on the way out and on the way in. */
  class PooledRecord {
    var fields: Wrapper

    constructor ()
      ensures fields == BLANK
    {
      fields := BLANK;
    }
  }

  class RecordPool {
    var free: set<PooledRecord>

    constructor ()
      ensures free == {}
    {
      free := {};
    }

    /** acquireRecord: a free wrapper if there is one, else a new one; no stale field survives. */
    method Acquire(r: Record) returns (rec: PooledRecord)
      modifies this, free
      ensures rec in old(free) || fresh(rec)
      ensures free == old(free) - {rec}
      ensures rec.fields == Filled(r)
      ensures forall other :: other in free ==> other.fields == old(other.fields)
    {
      if free != {} {
        rec :| rec in free;
      } else {
        rec := new PooledRecord();
      }
      free := free - {rec};
      rec.fields := Filled(r);
    }

    /** releaseRecord: wiped, then pooled. */
    method Put(rec: PooledRecord)
      modifies this, rec
      ensures free == old(free) + {rec}
      ensures rec.fields == BLANK
    {
      rec.fields := BLANK;
      free := free + {rec};
    }
  }
}
