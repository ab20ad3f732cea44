/** The byte-and-record admission controller (internal/limits/admission.go).

    `Ledger` is the abstract value; `Admission` is the controller itself, whose fields are
    64-bit and whose sums therefore wrap. `OverAdmitsIff` and `NeverOverAdmitsIff` say exactly when
    the wrapping lets a request in that the limits exclude. */
module Limits {

  datatype Ledger = Ledger(maxRecords: int, maxBytes: int, usedRecords: int, usedBytes: int)

  /** A limit of zero or less disables that limit. */
  predicate Admits(l: Ledger, records: int, bytes: int) {
    && 0 <= records
    && 0 <= bytes
    && (l.maxRecords > 0 ==> l.usedRecords + records <= l.maxRecords)
    && (l.maxBytes > 0 ==> l.usedBytes + bytes <= l.maxBytes)
  }

  function Acquire(l: Ledger, records: int, bytes: int): Ledger {
    l.(usedRecords := l.usedRecords + records, usedBytes := l.usedBytes + bytes)
  }

  function ClampedSub(used: int, amount: int): int {
    if used - amount < 0 then 0 else used - amount
  }

  function Return(l: Ledger, records: int, bytes: int): Ledger {
    l.(usedRecords := ClampedSub(l.usedRecords, records), usedBytes := ClampedSub(l.usedBytes, bytes))
  }

  /** Within the limits that are switched on, and never negative. */
  predicate InBounds(l: Ledger) {
    && 0 <= l.usedRecords
    && 0 <= l.usedBytes
    && (l.maxRecords > 0 ==> l.usedRecords <= l.maxRecords)
    && (l.maxBytes > 0 ==> l.usedBytes <= l.maxBytes)
  }

  const TWO_63: int := 0x8000_0000_0000_0000
  const TWO_64: int := 0x1_0000_0000_0000_0000

  predicate IsInt64(x: int) {
    -TWO_63 <= x < TWO_63
  }

  type Int64 = x: int | IsInt64(x) witness 0

  /** The value a 64-bit two's complement register holds after computing `x`. */
  function Wrap64(x: int): (r: Int64)
    ensures IsInt64(x) ==> r == x
  {
    (x + TWO_63) % TWO_64 - TWO_63
  }

  /** The test TryAcquire performs, sums wrapping as the hardware's do. */
  predicate Admits64(l: Ledger, records: int, bytes: int) {
    && 0 <= records
    && 0 <= bytes
    && !(l.maxRecords > 0 && Wrap64(l.usedRecords + records) > l.maxRecords)
    && !(l.maxBytes > 0 && Wrap64(l.usedBytes + bytes) > l.maxBytes)
  }

  function Acquire64(l: Ledger, records: int, bytes: int): Ledger {
    l.(usedRecords := Wrap64(l.usedRecords + records), usedBytes := Wrap64(l.usedBytes + bytes))
  }

  function Return64(l: Ledger, records: int, bytes: int): Ledger {
    l.(usedRecords := ClampedSub(Wrap64(l.usedRecords - records), 0),
       usedBytes := ClampedSub(Wrap64(l.usedBytes - bytes), 0))
  }

  // ---------------------------------------------------------------------------------------
  // When 64-bit arithmetic is the arithmetic the limits mean

  /** This limit is off, or a counter within it plus this amount stays below 2^63. */
  predicate Fits(limit: int, amount: int) {
    limit > 0 ==> limit + amount < TWO_63
  }

  /** From a ledger that is in bounds, giving back any 64-bit amount never wraps. */
  lemma {:induction false} Return64Agrees(l: Ledger, records: int, bytes: int)
    requires InBounds(l) && 0 <= records < TWO_63 && 0 <= bytes < TWO_63
    ensures l.usedRecords < TWO_63 ==> Return64(l, records, bytes).usedRecords == Return(l, records, bytes).usedRecords
    ensures l.usedBytes < TWO_63 ==> Return64(l, records, bytes).usedBytes == Return(l, records, bytes).usedBytes
  {
    assert l.usedRecords < TWO_63 ==> Wrap64(l.usedRecords - records) == l.usedRecords - records;
    assert l.usedBytes < TWO_63 ==> Wrap64(l.usedBytes - bytes) == l.usedBytes - bytes;
  }

  /** When every limit that is on fits together with the request, the decision is the one the limits
      mean, and the counters they bound do not wrap. */
  lemma {:induction false} Admits64Agrees(l: Ledger, records: int, bytes: int)
    requires InBounds(l) && 0 <= records && 0 <= bytes
    requires Fits(l.maxRecords, records) && Fits(l.maxBytes, bytes)
    ensures Admits64(l, records, bytes) <==> Admits(l, records, bytes)
    ensures l.maxRecords > 0 ==> Acquire64(l, records, bytes).usedRecords == Acquire(l, records, bytes).usedRecords
    ensures l.maxBytes > 0 ==> Acquire64(l, records, bytes).usedBytes == Acquire(l, records, bytes).usedBytes
  {
    assert l.maxRecords > 0 ==> Wrap64(l.usedRecords + records) == l.usedRecords + records;
    assert l.maxBytes > 0 ==> Wrap64(l.usedBytes + bytes) == l.usedBytes + bytes;
  }

  /** A ledger a controller can hold: 64-bit fields, and in bounds. */
  predicate Holdable(l: Ledger) {
    && InBounds(l)
    && IsInt64(l.maxRecords) && IsInt64(l.maxBytes)
    && IsInt64(l.usedRecords) && IsInt64(l.usedBytes)
  }

  /** The controller lets in a request that the limits exclude. */
  predicate OverAdmits(l: Ledger, records: int, bytes: int) {
    Admits64(l, records, bytes) && !Admits(l, records, bytes)
  }

  /** A sum this limit does not stop: it is within the limit, or it has wrapped. */
  predicate SlipsThrough(limit: int, sum: int) {
    limit > 0 ==> sum <= limit || sum >= TWO_63
  }

  /** A 64-bit sum of two non-negative numbers wraps exactly at 2^63, and then to a negative number. */
  lemma {:induction false} SumWraps(used: int, amount: int)
    requires 0 <= used < TWO_63 && 0 <= amount < TWO_63
    ensures Wrap64(used + amount) == if used + amount < TWO_63 then used + amount else used + amount - TWO_64
    ensures used + amount >= TWO_63 ==> Wrap64(used + amount) < 0
  {
  }

  /** Call by call: the controller over-admits exactly when no limit stops its sum and some limit
      that is on was got past by wrapping. It never refuses what the limits allow. */
  lemma {:induction false} OverAdmitsIff(l: Ledger, records: int, bytes: int)
    requires Holdable(l) && 0 <= records < TWO_63 && 0 <= bytes < TWO_63
    ensures Admits(l, records, bytes) ==> Admits64(l, records, bytes)
    ensures OverAdmits(l, records, bytes) <==>
      && SlipsThrough(l.maxRecords, l.usedRecords + records)
      && SlipsThrough(l.maxBytes, l.usedBytes + bytes)
      && ((l.maxRecords > 0 && l.usedRecords + records >= TWO_63) || (l.maxBytes > 0 && l.usedBytes + bytes >= TWO_63))
  {
    SumWraps(l.usedRecords, records);
    SumWraps(l.usedBytes, bytes);
  }

  /** The counters themselves stay exact exactly when neither sum reaches 2^63. */
  lemma {:induction false} AcquireIsExactIff(l: Ledger, records: int, bytes: int)
    requires Holdable(l) && 0 <= records < TWO_63 && 0 <= bytes < TWO_63
    ensures Acquire64(l, records, bytes) == Acquire(l, records, bytes) <==>
            l.usedRecords + records < TWO_63 && l.usedBytes + bytes < TWO_63
  {
    SumWraps(l.usedRecords, records);
    SumWraps(l.usedBytes, bytes);
  }

  /** No controller with these limits ever over-admits a request of up to this size. */
  ghost predicate NeverOverAdmits(maxRecords: int, maxBytes: int, mostRecords: int, mostBytes: int) {
    forall usedRecords, usedBytes, records, bytes ::
      Holdable(Ledger(maxRecords, maxBytes, usedRecords, usedBytes)) && 0 <= records <= mostRecords && 0 <= bytes <= mostBytes ==>
        !OverAdmits(Ledger(maxRecords, maxBytes, usedRecords, usedBytes), records, bytes)
  }

  /** Configuration by configuration: that is so exactly when every limit that is on, plus the
      largest request, is below 2^63. */
  lemma {:induction false} NeverOverAdmitsIff(maxRecords: int, maxBytes: int, mostRecords: int, mostBytes: int)
    requires IsInt64(maxRecords) && IsInt64(maxBytes) && 0 <= mostRecords < TWO_63 && 0 <= mostBytes < TWO_63
    ensures NeverOverAdmits(maxRecords, maxBytes, mostRecords, mostBytes) <==>
            Fits(maxRecords, mostRecords) && Fits(maxBytes, mostBytes)
  {
    if !Fits(maxRecords, mostRecords) {
      OverAdmitsIff(Ledger(maxRecords, maxBytes, maxRecords, 0), mostRecords, 0);
    } else if !Fits(maxBytes, mostBytes) {
      OverAdmitsIff(Ledger(maxRecords, maxBytes, 0, maxBytes), 0, mostBytes);
    } else {
      forall usedRecords, usedBytes, records, bytes |
        Holdable(Ledger(maxRecords, maxBytes, usedRecords, usedBytes)) && 0 <= records <= mostRecords && 0 <= bytes <= mostBytes
        ensures !OverAdmits(Ledger(maxRecords, maxBytes, usedRecords, usedBytes), records, bytes)
      {
        Admits64Agrees(Ledger(maxRecords, maxBytes, usedRecords, usedBytes), records, bytes);
      }
    }
  }

  /** A concrete over-admission: one byte in use, and a request that brings the sum to 2^63. */
  lemma {:induction false} Admits64CanOverAdmit()
    ensures
      var l := Ledger(10, TWO_63 - 1, 1, 1);
      Holdable(l) && OverAdmits(l, 1, TWO_63 - 1)
  {
    OverAdmitsIff(Ledger(10, TWO_63 - 1, 1, 1), 1, TWO_63 - 1);
  }

  class Admission {
    const maxRecords: Int64
    const maxBytes: Int64
    var usedRecords: Int64
    var usedBytes: Int64

    ghost function Value(): Ledger
      reads this
    {
      Ledger(maxRecords, maxBytes, usedRecords, usedBytes)
    }

    constructor (maxRecords: Int64, maxBytes: Int64)
      ensures Value() == Ledger(maxRecords, maxBytes, 0, 0)
    {
      this.maxRecords := maxRecords;
      this.maxBytes := maxBytes;
      usedRecords, usedBytes := 0, 0;
    }

    method TryAcquire(records: Int64, bytes: Int64) returns (ok: bool)
      modifies this
      ensures ok <==> Admits64(old(Value()), records, bytes)
      ensures Value() == if ok then Acquire64(old(Value()), records, bytes) else old(Value())
    {
      if records < 0 || bytes < 0 {
        return false;
      }
      if maxRecords > 0 && Wrap64(usedRecords + records) > maxRecords {
        return false;
      }
      if maxBytes > 0 && Wrap64(usedBytes + bytes) > maxBytes {
        return false;
      }
      usedRecords := Wrap64(usedRecords + records);
      usedBytes := Wrap64(usedBytes + bytes);
      return true;
    }

    method Release(records: Int64, bytes: Int64)
      modifies this
      ensures Value() == Return64(old(Value()), records, bytes)
    {
      usedRecords := Wrap64(usedRecords - records);
      if usedRecords < 0 {
        usedRecords := 0;
      }
      usedBytes := Wrap64(usedBytes - bytes);
      if usedBytes < 0 {
        usedBytes := 0;
      }
    }

    method Snapshot() returns (usedRecords: Int64, maxRecords: Int64, usedBytes: Int64, maxBytes: Int64)
      ensures Ledger(maxRecords, maxBytes, usedRecords, usedBytes) == Value()
    {
      return this.usedRecords, this.maxRecords, this.usedBytes, this.maxBytes;
    }
  }

  // The methods on a nil controller: it admits everything, gives back nothing and reports zeros.

  method TryAcquireOn(a: Admission?, records: Int64, bytes: Int64) returns (ok: bool)
    modifies if a == null then {} else {a}
    ensures a == null ==> ok
    ensures a != null ==> (ok <==> Admits64(old(a.Value()), records, bytes))
    ensures a != null ==> a.Value() == if ok then Acquire64(old(a.Value()), records, bytes) else old(a.Value())
  {
    if a == null {
      return true;
    }
    ok := a.TryAcquire(records, bytes);
  }

  method ReleaseOn(a: Admission?, records: Int64, bytes: Int64)
    modifies if a == null then {} else {a}
    ensures a != null ==> a.Value() == Return64(old(a.Value()), records, bytes)
  {
    if a != null {
      a.Release(records, bytes);
    }
  }

  method SnapshotOf(a: Admission?) returns (usedRecords: Int64, maxRecords: Int64, usedBytes: Int64, maxBytes: Int64)
    ensures Ledger(maxRecords, maxBytes, usedRecords, usedBytes) == if a == null then Ledger(0, 0, 0, 0) else a.Value()
  {
    if a == null {
      return 0, 0, 0, 0;
    }
    usedRecords, maxRecords, usedBytes, maxBytes := a.Snapshot();
  }
}
