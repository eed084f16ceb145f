/** Result types shared by every component, and the machine integer the wire format uses. */
module Wrappers {
  datatype Option<+T> = None | Some(value: T)

  /** The error classes of `SyncError`; message texts are not modelled. */
  datatype SyncError = InvalidData | Io | NotFound | Unauthorized | Internal

  datatype Result<+T> = Ok(value: T) | Err(error: SyncError) {
    predicate IsFailure() { Err? }

    function PropagateFailure<U>(): Result<U>
      requires Err?
    {
      Err(error)
    }

    function Extract(): T
      requires Ok?
    {
      value
    }
  }

  const U64_LIMIT: nat := 0x1_0000_0000_0000_0000

  type u64 = n: nat | n < U64_LIMIT

  /** Addition on u64 that wraps around. */
  function WrappingAdd(a: u64, b: u64): u64 {
    if a + b < U64_LIMIT then a + b else a + b - U64_LIMIT
  }

  /** Where calls are reliable none fails of its own accord; anywhere else any may. */
  method FaultUnless(reliable: bool) returns (fault: bool)
    ensures fault ==> !reliable
  {
    fault := *;
    if reliable {
      fault := false;
    }
  }

  /** A flag that records faults: it stays set, and it is never set where calls are reliable. */
  predicate NoFalseFault(before: bool, faulted: bool, reliable: bool) {
    (before ==> faulted) && (faulted ==> before || !reliable)
  }
}
