/** The block status bits and the context flag bits of r600.h, each a
    single bit `1 << k`, tested with `&`. */
module Flags {
  import opened Bits

  const R600_BLOCK_STATUS_ENABLED: nat := ShiftLeft(1, 0)
  const R600_BLOCK_STATUS_DIRTY: nat := ShiftLeft(1, 1)

  const R600_CONTEXT_DRAW_PENDING: nat := ShiftLeft(1, 0)
  const R600_CONTEXT_DST_CACHES_DIRTY: nat := ShiftLeft(1, 1)
  const R600_CONTEXT_CHECK_EVENT_FLUSH: nat := ShiftLeft(1, 2)

  /** `(flags & flag) != 0`. */
  predicate HasFlag(flags: nat, flag: nat)
  {
    And(flags, flag) != 0
  }

  /** `(1 << i) & (1 << j)` is nonzero exactly when i == j. */
  lemma SingleBitsMeet(i: nat, j: nat)
    ensures HasFlag(ShiftLeft(1, i), ShiftLeft(1, j)) <==> i == j
  {
    ShiftLeftIsMul(1, i);
    ShiftLeftIsMul(1, j);
    AndOfPow2(i, j);
  }

  /** The block status bits are distinct single bits: a status word holding
      only one of them tests positive for it and negative for the other. */
  lemma BlockStatusBits()
    ensures R600_BLOCK_STATUS_ENABLED != 0 && R600_BLOCK_STATUS_DIRTY != 0
    ensures HasFlag(R600_BLOCK_STATUS_ENABLED, R600_BLOCK_STATUS_ENABLED)
    ensures HasFlag(R600_BLOCK_STATUS_DIRTY, R600_BLOCK_STATUS_DIRTY)
    ensures !HasFlag(R600_BLOCK_STATUS_ENABLED, R600_BLOCK_STATUS_DIRTY)
    ensures !HasFlag(R600_BLOCK_STATUS_DIRTY, R600_BLOCK_STATUS_ENABLED)
  {
    SingleBitsMeet(0, 0);
    SingleBitsMeet(1, 1);
    SingleBitsMeet(0, 1);
    SingleBitsMeet(1, 0);
  }

  /** The context flags are pairwise distinct single bits. */
  lemma ContextFlagBits()
    ensures HasFlag(R600_CONTEXT_DRAW_PENDING, R600_CONTEXT_DRAW_PENDING)
    ensures HasFlag(R600_CONTEXT_DST_CACHES_DIRTY, R600_CONTEXT_DST_CACHES_DIRTY)
    ensures HasFlag(R600_CONTEXT_CHECK_EVENT_FLUSH, R600_CONTEXT_CHECK_EVENT_FLUSH)
    ensures !HasFlag(R600_CONTEXT_DRAW_PENDING, R600_CONTEXT_DST_CACHES_DIRTY)
    ensures !HasFlag(R600_CONTEXT_DRAW_PENDING, R600_CONTEXT_CHECK_EVENT_FLUSH)
    ensures !HasFlag(R600_CONTEXT_DST_CACHES_DIRTY, R600_CONTEXT_CHECK_EVENT_FLUSH)
  {
    SingleBitsMeet(0, 0);
    SingleBitsMeet(1, 1);
    SingleBitsMeet(2, 2);
    SingleBitsMeet(0, 1);
    SingleBitsMeet(0, 2);
    SingleBitsMeet(1, 2);
  }
}
