# radeonsi r600.h: register hash and pipe-state register list

This project models the executable part of `src/gallium/drivers/radeonsi/r600.h`,
the header of the radeonsi driver's register-state cache. Two pieces have bodies
there, and both are modelled:

- **The register hash.** `CTX_RANGE_ID` and `CTX_BLOCK_ID` map a hardware register
  byte offset to a (range, block) pair. The offset is taken relative to
  `RANGE_OFFSET_START = 0x8000` and turned into a dword index (`>> 2`). Each range
  covers `HASH_SHIFT = 9` bits of dword space, which is 512 dwords or 2 KB. The range
  id is masked with `& 255` and the block id with `& 511`. `NUM_RANGES` is the number
  of 2 KB ranges in the window `[0x8000, 0x42000)`.
- **The pipe-state register list.** `struct r600_pipe_state` holds a fixed array of
  `R600_BLOCK_MAX_REG = 128` entries (`struct r600_pipe_reg`) and a fill count
  `nregs`. `r600_pipe_state_mod_reg` and `r600_pipe_state_mod_reg_bo` append to it
  in place. The `r600_pipe_state_add_reg` macro computes the range and block ids it
  passes on to `_r600_pipe_state_add_reg`.

Files:

- `bits.dfy` (module `Bits`): 32-bit unsigned values and their wrap-around. It also
  defines the C operators `>>`, `<<` and `&` bit by bit, with lemmas that turn them
  into division and remainder by powers of two.
- `register_hash.dfy` (module `RegisterHash`): the hash macros, written with the
  operators from `Bits`, and the properties of the hash.
- `pipe_state.dfy` (module `R600State`): `struct r600_pipe_reg` as a datatype.
  `struct r600_pipe_state` is a class whose `regs` array is updated in place by
  `ModReg` and `ModRegBo`. The module also holds the argument computation of
  `r600_pipe_state_add_reg`.
- `flags.dfy` (module `Flags`): the block status bits and the context flag bits.

Modelling decisions:

- The offset is taken as an unsigned 32-bit value, so `offset - RANGE_OFFSET_START`
  wraps modulo 2^32 (`Bits.Wrap32`). The macros are expanded on the caller's
  argument text, so in C the subtraction happens in the argument's own type. For a
  signed `int` argument below 0x8000 the difference is negative and does not wrap.
  `HashFloor` proves that both readings give the same ids, provided the right shift
  of a negative value is arithmetic (floor division). The model does not require
  the offset to be inside the window; every 32-bit offset has a hash.
- The C comment beside `NUM_RANGES` (r600.h:80) says "128 << 9 = 64k". The
  expression evaluates to 116. The model follows the expression, and
  `NumRangesValue` proves the value 116.
- Pointer fields (`block`, `bo`, the context) are `Ref` values: null, or the
  identity of an object. `enum radeon_bo_usage` belongs to the winsys header, so it
  is kept as its numeric code.
- The C header has no constructor for `struct r600_pipe_state`. The Dafny
  constructor stands for a zero-filled allocation of the structure.
- `r600_pipe_state_mod_reg` and `r600_pipe_state_mod_reg_bo` write
  `regs[nregs]` without checking the capacity. The model makes
  `nregs < R600_BLOCK_MAX_REG` a precondition, because a write past the array is
  undefined behaviour in C and not something the model can describe.
- The `& 255` mask truncates only outside the window. An offset 512 KB past a
  managed register gets the same ids as that register (`MaskAliasing`). Offsets
  from the window end up to 0x88000 get a range id of at least `NUM_RANGES`
  (`RangeIdOutsideWindow`). Offsets below the window wrap to range ids 240..255.
  The caller that uses these ids is not part of this model, so the model does not
  say whether such offsets ever reach the hash.

## Model

| member | source | states |
|---|---|---|
| `Bits.Wrap32` | src/gallium/drivers/radeonsi/r600.h:82 | C unsigned conversion: the result is a 32-bit value congruent to its argument modulo 2^32. It equals the argument when that is already in range, and is the argument plus 2^32 when the argument is negative but not below -2^32. |
| `Bits.ShiftRightIsDiv` | src/gallium/drivers/radeonsi/r600.h:82-83 | `x >> n`, defined as n halvings, equals `x / 2^n`. |
| `Bits.ShiftLeftIsMul` | src/gallium/drivers/radeonsi/r600.h:80 | `x << n`, defined as n doublings, equals `x * 2^n`. |
| `Bits.AndLowMask` | src/gallium/drivers/radeonsi/r600.h:82-83 | `x & (2^k - 1)`, defined bit by bit, equals `x % 2^k`. |
| `Bits.AndOfPow2` | src/gallium/drivers/radeonsi/r600.h:99-100 | Two single bits `2^i & 2^j` are 0 when i differs from j, and `2^i` when they are equal. |
| `RegisterHash.NumRangesValue` | src/gallium/drivers/radeonsi/r600.h:78-80 | `NUM_RANGES` is 116, not the 128 of its comment. The 116 ranges of 2 KB exactly tile `[0x8000, 0x42000)`. |
| `RegisterHash.HashArithmetic` | src/gallium/drivers/radeonsi/r600.h:82-83 | The range id is the 2 KB range number of the wrapped delta modulo 256. The block id is its dword index modulo 512. |
| `RegisterHash.HashFloor` | src/gallium/drivers/radeonsi/r600.h:82-83 | For every 32-bit offset, the ids equal the floor-division form on the signed difference: range `(offset - 0x8000) / 2048 mod 256` and block `(offset - 0x8000) / 4 mod 512`. So the unsigned and the signed, arithmetic-shift readings agree. |
| `RegisterHash.IdBounds` | src/gallium/drivers/radeonsi/r600.h:82-83 | For every 32-bit offset, the range id is at most 255 and the block id is below 512. |
| `RegisterHash.RangeIdInWindow` | src/gallium/drivers/radeonsi/r600.h:76-82 | Inside `[0x8000, 0x42000)` the range id equals `(offset - 0x8000) / 2048`, so the mask cuts nothing. It is also below `NUM_RANGES`. |
| `RegisterHash.RangeIdOutsideWindow` | src/gallium/drivers/radeonsi/r600.h:76-82 | Outside the window, for offsets below 0x88000, the range id is at least `NUM_RANGES`. Below 0x8000 it is at least 240. |
| `RegisterHash.InWindowIds` | src/gallium/drivers/radeonsi/r600.h:74-83 | Inside the window the range id is the dword index `(offset - 0x8000) / 4` divided by 512, and the block id is that index modulo 512. |
| `RegisterHash.OffsetOfIds` | src/gallium/drivers/radeonsi/r600.h:74-83 | Decomposition: an aligned offset in the window equals `0x8000 + 4 * (range * 512 + block)` of its own ids. |
| `RegisterHash.IdsOfOffset` | src/gallium/drivers/radeonsi/r600.h:74-83 | Inverse direction: every range below `NUM_RANGES` paired with every block below 512 is the hash of an aligned offset in the window, namely `RegisterOffset(range, block)`. |
| `RegisterHash.HashInjective` | src/gallium/drivers/radeonsi/r600.h:82-83 | Two aligned offsets in the window that have the same range id and the same block id are equal. |
| `RegisterHash.SameDwordSameIds` | src/gallium/drivers/radeonsi/r600.h:82-83 | For every 32-bit offset, offsets that differ only in their low two bits have the same range id and the same block id. |
| `RegisterHash.NextDword` | src/gallium/drivers/radeonsi/r600.h:74-83 | Inside one range, the next dword register keeps the range id and has block id + 1. After block 511 it is block 0 of the next range. |
| `RegisterHash.MaskAliasing` | src/gallium/drivers/radeonsi/r600.h:82-83 | For every 32-bit offset whose successor 256 ranges (512 KB) further on is still a 32-bit value, that successor has the same range id and the same block id. |
| `R600State.PipeState.constructor` | src/gallium/drivers/radeonsi/r600.h:93-97 | A zeroed pipe state has `id` 0, no entries, and 128 zero entries in its array. |
| `R600State.PipeState.ModReg` | src/gallium/drivers/radeonsi/r600.h:227-232 | With room left, it sets `value` of entry `nregs` and increments `nregs` by one. That entry's block, buffer, usage and id, every other entry, and `id` are unchanged. The entry list grows by that one entry. |
| `R600State.PipeState.ModRegBo` | src/gallium/drivers/radeonsi/r600.h:234-242 | With room left, it sets `value`, `bo` and `bo_usage` of entry `nregs` and increments `nregs` by one. That entry's block and id, every other entry, and `id` are unchanged. |
| `R600State.AddRegCall` | src/gallium/drivers/radeonsi/r600.h:225 | The macro passes `CTX_RANGE_ID(offset)` and `CTX_BLOCK_ID(offset)` and forwards its other arguments unchanged. The ids are within their masks. For an offset in the window the range id indexes an existing range, and for an aligned one the ids rebuild the offset. |
| `Flags.BlockStatusBits` | src/gallium/drivers/radeonsi/r600.h:99-100 | ENABLED and DIRTY are nonzero and distinct single bits: each one tests positive for itself and negative for the other, in both orders. |
| `Flags.ContextFlagBits` | src/gallium/drivers/radeonsi/r600.h:162-164 | DRAW_PENDING, DST_CACHES_DIRTY and CHECK_EVENT_FLUSH are pairwise distinct single bits. |

## Left out

- Functions declared without a body in r600.h (lines 180-223) are not part of this
  model, because their behaviour is not in the header. These are context setup and
  teardown, `r600_context_pipe_state_set`, flush, the query functions,
  suspend/resume, predication, fences, cache invalidation, streamout,
  `si_context_draw`, `r600_need_cs_space`, the block emit functions,
  `_r600_pipe_state_add_reg` and `r600_pipe_state_add_reg_noblock`.
- `AddRegCall` models only the arguments `r600_pipe_state_add_reg` computes. The
  callee `_r600_pipe_state_add_reg` is not part of this model.
- `struct r600_block`, `struct r600_range`, `struct r600_query`, `struct r600_so_target`
  and `struct r600_draw` only have fields in the header and no code, so they are
  not modelled. This includes the query ring-buffer fields and the intrusive
  `list_head` links.
- Winsys and buffer objects (`struct r600_resource`, `pb_buffer`, the command-stream
  handle) are foreign I/O types. They appear only as opaque `Ref` values.
- `R600_ERR` is a `fprintf` to stderr, which is I/O.
- The chip family and chip class enumerations and `struct r600_tiling_info` are
  capability data with no logic.
- `R600State.PipeState.ModReg`: requires `nregs < 128`. The C function has no such
  check and writes past the array when it is full.
- `R600State.PipeState.ModRegBo`: requires `nregs < 128` for the same reason as
  `ModReg`.
- `RegisterHash.HashFloor`: for a signed argument below 0x8000, C leaves the right
  shift of the negative difference implementation-defined. The model agrees with
  an arithmetic shift (floor division) and says nothing about other
  implementations.
- The macros' missing parentheses around `offset` are not modelled. The model
  takes the offset as one already evaluated `uint32_t`.
