/** The explicit partitioner (internal/producer/franz/partitioner.go): a record that names a
    partition keeps it, any other goes to the client's own partitioner. */
module Partitioner {
  import opened Base
  import opened ProduceProtocol

  /** The wrapped client partitioner; `byBackup` is present when it implements that interface. */
  datatype Fallback = Fallback(
    partition: (Wrapper, nat) -> int,
    byBackup: Option<(Wrapper, nat) -> int>,
    requiresConsistency: Wrapper -> bool)

  predicate RequiresConsistency(f: Fallback, w: Wrapper) {
    w.partition >= 0 || f.requiresConsistency(w)
  }

  function Partition(f: Fallback, w: Wrapper, n: nat): int {
    if w.partition >= 0 then w.partition else f.partition(w, n)
  }

  function PartitionByBackup(f: Fallback, w: Wrapper, n: nat): int {
    if w.partition >= 0 then w.partition
    else if f.byBackup.Some? then f.byBackup.value(w, n)
    else f.partition(w, n)
  }
}
