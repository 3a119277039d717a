/** Shared vocabulary: optional values, identifiers and the two integer limits
    the protocol enforces. */
module Common {
  datatype Option<+T> = None | Some(value: T)

  /** A UUID. Only equality of identifiers matters to the protocol. */
  type Id = nat

  /** Largest safe integer of a binary64 number: the limit of every message sequence. */
  const MAX_SAFE: nat := 9007199254740991

  /** Largest value of a 32-bit database integer: the limit of revisions and attempts. */
  const MAX_INT32: nat := 2147483647

  /** Whether a job may change the repository. */
  datatype Mode = Normal | ReadOnly

  function Min(a: int, b: int): int { if a <= b then a else b }

  function Max(a: nat, b: nat): nat { if a >= b then a else b }

  lemma SubsetSize<T>(a: set<T>, b: set<T>)
    requires a <= b
    ensures |a| <= |b| && (|a| == |b| <==> a == b)
  {
    if a != b {
      var x :| x in b && x !in a;
      SubsetSize(a, b - {x});
    }
  }
}
