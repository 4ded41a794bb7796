/** `struct r600_pipe_state` of r600.h: a fixed array of R600_BLOCK_MAX_REG
    register entries and the count `nregs` of the entries filled so far,
    with the two inline functions that append to it in place and the
    `r600_pipe_state_add_reg` macro's argument computation. */
module R600State {
  import opened Bits
  import opened RegisterHash

  const R600_BLOCK_MAX_REG: nat := 128

  /** A pointer field of the driver (to a block, a buffer object or the
      context): null, or the identity of the object it points to. */
  datatype Ref = Null | Ptr(address: nat)

  /** The numeric code of an `enum radeon_bo_usage` (read, write or both);
      the enumeration belongs to the winsys header. */
  type BoUsage = nat

  /** `struct r600_pipe_reg`: one register entry of a pipe state. */
  datatype PipeReg = PipeReg(value: u32, block: Ref, bo: Ref, boUsage: BoUsage, id: u32)

  /** An entry of freshly zeroed memory. */
  const ZERO_REG: PipeReg := PipeReg(0, Null, Null, 0, 0)

  class PipeState {
    var id: u32
    var nregs: u32
    /** The inline array `regs[R600_BLOCK_MAX_REG]`: its storage never moves. */
    const regs: array<PipeReg>

    ghost predicate Valid()
      reads this
    {
      regs.Length == R600_BLOCK_MAX_REG && nregs <= R600_BLOCK_MAX_REG
    }

    /** The entries filled so far, in the order they were appended. */
    ghost function Entries(): seq<PipeReg>
      reads this, regs
      requires Valid()
    {
      regs[..nregs]
    }

    /** A zero-filled allocation of the structure, as the driver obtains it. */
    constructor ()
      ensures Valid() && fresh(regs)
      ensures id == 0 && nregs == 0 && Entries() == []
      ensures forall i :: 0 <= i < regs.Length ==> regs[i] == ZERO_REG
    {
      id := 0;
      nregs := 0;
      regs := new PipeReg[R600_BLOCK_MAX_REG](_ => ZERO_REG);
    }

    /** `r600_pipe_state_mod_reg`: stores `value` in the next free entry and
        counts it.  The entry keeps the block, buffer, usage and id it held
        before; nothing else changes.  The C function does not check the
        capacity: a caller must leave room. */
    method ModReg(value: u32)
      requires Valid() && nregs < R600_BLOCK_MAX_REG
      modifies this`nregs, regs
      ensures Valid() && id == old(id)
      ensures nregs == old(nregs) + 1
      ensures regs[old(nregs)] == old(regs[nregs]).(value := value)
      ensures forall i :: 0 <= i < regs.Length && i != old(nregs) ==> regs[i] == old(regs[i])
      ensures Entries() == old(Entries()) + [old(regs[nregs]).(value := value)]
    {
      regs[nregs] := regs[nregs].(value := value);
      nregs := nregs + 1;
    }

    /** `r600_pipe_state_mod_reg_bo`: like ModReg, and also stores the buffer
        and its usage in that entry; its block and id stay as they were. */
    method ModRegBo(value: u32, bo: Ref, usage: BoUsage)
      requires Valid() && nregs < R600_BLOCK_MAX_REG
      modifies this`nregs, regs
      ensures Valid() && id == old(id)
      ensures nregs == old(nregs) + 1
      ensures regs[old(nregs)] == old(regs[nregs]).(value := value, bo := bo, boUsage := usage)
      ensures forall i :: 0 <= i < regs.Length && i != old(nregs) ==> regs[i] == old(regs[i])
      ensures Entries() == old(Entries()) + [old(regs[nregs]).(value := value, bo := bo, boUsage := usage)]
    {
      regs[nregs] := regs[nregs].(value := value, bo := bo, boUsage := usage);
      nregs := nregs + 1;
    }
  }

  /** The arguments `r600_pipe_state_add_reg` hands to
      `_r600_pipe_state_add_reg`; the context is whatever `rctx` names where
      the macro is expanded. */
  datatype AddRegArgs = AddRegArgs(
    ctx: Ref, state: Ref, offset: u32, value: u32,
    rangeId: nat, blockId: nat, bo: Ref, usage: BoUsage)

  /** `r600_pipe_state_add_reg(state, offset, value, bo, usage)`: the call it
      expands to, with the range and block ids hashed from the offset. */
  function AddRegCall(rctx: Ref, state: Ref, offset: u32, value: u32, bo: Ref, usage: BoUsage): (c: AddRegArgs)
    ensures c.ctx == rctx && c.state == state && c.offset == offset && c.value == value
    ensures c.bo == bo && c.usage == usage
    ensures c.rangeId == CtxRangeId(offset) && c.blockId == CtxBlockId(offset)
    ensures c.rangeId <= 255 && c.blockId < RANGE_DWORDS
    ensures InWindow(offset) ==> c.rangeId < NumRanges()
    ensures InWindow(offset) && offset % 4 == 0 ==> RegisterOffset(c.rangeId, c.blockId) == offset
  {
    IdBounds(offset);
    WindowIds(offset);
    AddRegArgs(rctx, state, offset, value, CtxRangeId(offset), CtxBlockId(offset), bo, usage)
  }

  /** The window facts AddRegCall relies on, for any offset. */
  lemma WindowIds(offset: u32)
    ensures InWindow(offset) ==> CtxRangeId(offset) < NumRanges()
    ensures InWindow(offset) && offset % 4 == 0 ==> RegisterOffset(CtxRangeId(offset), CtxBlockId(offset)) == offset
  {
    if InWindow(offset) {
      RangeIdInWindow(offset);
      if offset % 4 == 0 {
        OffsetOfIds(offset);
      }
    }
  }
}
