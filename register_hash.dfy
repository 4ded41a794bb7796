/** The hash from a hardware register byte offset to a (range, block) pair
    (`CTX_RANGE_ID`, `CTX_BLOCK_ID`, `NUM_RANGES` in r600.h).

    The managed window starts at RANGE_OFFSET_START.  The offset is turned
    into a dword index (`>> 2`); each range covers HASH_SHIFT = 9 bits of
    dword space (512 dwords, 2 KB), and the block id is the dword's position
    inside its range.  The offset is taken as a 32-bit unsigned value, so
    the subtraction wraps below the window; HashFloor shows that a signed
    offset with an arithmetic right shift yields the same ids. */
module RegisterHash {
  import opened Bits

  const RANGE_OFFSET_START: nat := 0x8000
  const HASH_SHIFT: nat := 9
  /** Upper bound of the window: real registers stop below it, and fake
      offsets for sampler border colours sit at 0x40000. */
  const RANGE_OFFSET_END: nat := 0x42000

  /** Number of dwords in one range, `1 << HASH_SHIFT`. */
  const RANGE_DWORDS: nat := 512
  /** Number of bytes in one range, `4 << HASH_SHIFT`. */
  const RANGE_BYTES: nat := 2048

  /** `NUM_RANGES`: how many 2 KB ranges the window spans. */
  function NumRanges(): nat
  {
    (RANGE_OFFSET_END - RANGE_OFFSET_START) / ShiftLeft(4, HASH_SHIFT)
  }

  /** `offset - RANGE_OFFSET_START` in unsigned 32-bit arithmetic. */
  function WindowDelta(offset: u32): u32
  {
    Wrap32(offset - RANGE_OFFSET_START)
  }

  /** `(offset - RANGE_OFFSET_START) >> 2`: the dword index inside the window. */
  function DwordIndex(offset: u32): nat
  {
    ShiftRight(WindowDelta(offset), 2)
  }

  /** `CTX_RANGE_ID(offset)`. */
  function CtxRangeId(offset: u32): nat
  {
    And(ShiftRight(DwordIndex(offset), HASH_SHIFT), 255)
  }

  /** `CTX_BLOCK_ID(offset)`. */
  function CtxBlockId(offset: u32): nat
  {
    And(DwordIndex(offset), ShiftLeft(1, HASH_SHIFT) - 1)
  }

  predicate InWindow(offset: int)
  {
    RANGE_OFFSET_START <= offset < RANGE_OFFSET_END
  }

  /** The register byte offset a (range, block) pair stands for: the
      inverse of the hash inside the window. */
  function RegisterOffset(rangeId: nat, blockId: nat): nat
  {
    RANGE_OFFSET_START + 4 * (rangeId * RANGE_DWORDS + blockId)
  }

  /** The window holds 116 ranges (the comment beside the macro says 128). */
  lemma NumRangesValue()
    ensures NumRanges() == 116
    ensures NumRanges() * RANGE_BYTES == RANGE_OFFSET_END - RANGE_OFFSET_START
  {
    ShiftLeftIsMul(4, HASH_SHIFT);
  }

  lemma {:induction false} ShiftRightAdd(x: nat, m: nat, n: nat)
    ensures ShiftRight(ShiftRight(x, m), n) == ShiftRight(x, m + n)
    decreases m
  {
    if m > 0 {
      ShiftRightAdd(x / 2, m - 1, n);
    }
  }

  /** The shifts and masks of the two macros are division and remainder:
      the range id is the 2 KB range number modulo 256, the block id the
      dword index modulo 512. */
  lemma HashArithmetic(offset: u32)
    ensures CtxRangeId(offset) == WindowDelta(offset) / RANGE_BYTES % 256
    ensures CtxBlockId(offset) == WindowDelta(offset) / 4 % RANGE_DWORDS
  {
    var d := WindowDelta(offset);
    ShiftRightAdd(d, 2, HASH_SHIFT);
    ShiftRightIsDiv(d, 2 + HASH_SHIFT);
    ShiftRightIsDiv(d, 2);
    assert Pow2(2) == 4 && Pow2(8) == 256 && Pow2(9) == 512 && Pow2(11) == 2048;
    AndLowMask(ShiftRight(d, 2 + HASH_SHIFT), 8);
    ShiftLeftIsMul(1, HASH_SHIFT);
    AndLowMask(ShiftRight(d, 2), HASH_SHIFT);
  }

  /** The ids computed on the signed difference `offset - RANGE_OFFSET_START`
      with floor division (what an arithmetic right shift gives for a
      negative value) are the same as on the wrapped unsigned difference:
      2^32 is a multiple of both 2048 * 256 and 4 * 512. */
  lemma HashFloor(offset: u32)
    ensures CtxRangeId(offset) == (offset - RANGE_OFFSET_START) / RANGE_BYTES % 256
    ensures CtxBlockId(offset) == (offset - RANGE_OFFSET_START) / 4 % RANGE_DWORDS
  {
    HashArithmetic(offset);
    var x := offset - RANGE_OFFSET_START;
    if x < 0 {
      assert WindowDelta(offset) == x + RANGE_BYTES * 2097152;
      DivAddMultiple(x, RANGE_BYTES, 2097152);
      DivAddMultiple(x / RANGE_BYTES, 256, 8192);
      assert WindowDelta(offset) == x + 4 * 0x4000_0000;
      DivAddMultiple(x, 4, 0x4000_0000);
      DivAddMultiple(x / 4, RANGE_DWORDS, 0x20_0000);
    }
  }

  /** Whatever the offset, the masks bound the ids: a range id fits in a
      byte and a block id is below 1 << HASH_SHIFT. */
  lemma IdBounds(offset: u32)
    ensures CtxRangeId(offset) <= 255
    ensures CtxBlockId(offset) < RANGE_DWORDS
  {
    HashArithmetic(offset);
  }

  /** Inside the window the range id is the plain 2 KB range number (the
      `& 255` mask cuts nothing off) and indexes one of the NUM_RANGES ranges. */
  lemma RangeIdInWindow(offset: u32)
    requires InWindow(offset)
    ensures CtxRangeId(offset) == (offset - RANGE_OFFSET_START) / RANGE_BYTES
    ensures CtxRangeId(offset) < NumRanges()
  {
    HashArithmetic(offset);
    NumRangesValue();
  }

  /** Below the window the subtraction wraps and the range id lands in
      240..255; from the window end up to the point where the mask wraps it
      is at least NUM_RANGES.  Either way it indexes no range. */
  lemma RangeIdOutsideWindow(offset: u32)
    requires !InWindow(offset)
    requires offset < RANGE_OFFSET_START + 256 * RANGE_BYTES
    ensures NumRanges() <= CtxRangeId(offset)
    ensures offset < RANGE_OFFSET_START ==> 240 <= CtxRangeId(offset)
  {
    HashArithmetic(offset);
    NumRangesValue();
    var d := WindowDelta(offset);
    if offset < RANGE_OFFSET_START {
      // 2^32 - 0x8000 is 2097136 ranges, and 2097136 is 16 short of a
      // multiple of 256.
      var q := offset / RANGE_BYTES;
      assert q < 16;
      assert d == offset + RANGE_BYTES * 2097136;
      DivAddMultiple(offset, RANGE_BYTES, 2097136);
      DivModUnique(2097136 + q, 256, 8191, 240 + q);
    } else {
      var q := d / RANGE_BYTES;
      assert 116 <= q < 256;
      DivModUnique(q, 256, 0, q);
    }
  }

  /** Inside the window the ids are the quotient and remainder of the
      dword index by 512. */
  lemma InWindowIds(offset: u32)
    requires InWindow(offset)
    ensures CtxRangeId(offset) == (offset - RANGE_OFFSET_START) / 4 / RANGE_DWORDS
    ensures CtxBlockId(offset) == (offset - RANGE_OFFSET_START) / 4 % RANGE_DWORDS
  {
    RangeIdInWindow(offset);
    HashArithmetic(offset);
    DivDiv(offset - RANGE_OFFSET_START, 4, RANGE_DWORDS);
  }

  /** Decomposition: a dword-aligned offset in the window is rebuilt from
      its range id and block id. */
  lemma OffsetOfIds(offset: u32)
    requires InWindow(offset) && offset % 4 == 0
    ensures RegisterOffset(CtxRangeId(offset), CtxBlockId(offset)) == offset
  {
    InWindowIds(offset);
    var dw := (offset - RANGE_OFFSET_START) / 4;
    DivAddMultiple(offset, 4, -(RANGE_OFFSET_START / 4));
    assert offset - RANGE_OFFSET_START == 4 * dw;
    assert dw == RANGE_DWORDS * (dw / RANGE_DWORDS) + dw % RANGE_DWORDS;
  }

  /** Every pair of a range below NUM_RANGES and a block below 512 is the
      hash of exactly the aligned offset RegisterOffset gives for it. */
  lemma IdsOfOffset(rangeId: nat, blockId: nat)
    requires rangeId < NumRanges() && blockId < RANGE_DWORDS
    ensures InWindow(RegisterOffset(rangeId, blockId))
    ensures RegisterOffset(rangeId, blockId) % 4 == 0
    ensures CtxRangeId(RegisterOffset(rangeId, blockId)) == rangeId
    ensures CtxBlockId(RegisterOffset(rangeId, blockId)) == blockId
  {
    NumRangesValue();
    var offset := RegisterOffset(rangeId, blockId);
    var dw := rangeId * RANGE_DWORDS + blockId;
    assert WindowDelta(offset) == 4 * dw;
    HashArithmetic(offset);
    DivModUnique(4 * dw, RANGE_BYTES, rangeId, 4 * blockId);
    DivModUnique(rangeId, 256, 0, rangeId);
    DivModUnique(4 * dw, 4, dw, 0);
    DivModUnique(dw, RANGE_DWORDS, rangeId, blockId);
  }

  /** Injectivity: two different aligned offsets in the window never share
      both ids. */
  lemma HashInjective(a: u32, b: u32)
    requires InWindow(a) && a % 4 == 0
    requires InWindow(b) && b % 4 == 0
    requires CtxRangeId(a) == CtxRangeId(b) && CtxBlockId(a) == CtxBlockId(b)
    ensures a == b
  {
    OffsetOfIds(a);
    OffsetOfIds(b);
  }

  /** The window delta moves every offset by a multiple of 4 that depends
      only on the side of the window start the offset is on. */
  lemma SameDwordSameDelta(a: u32, b: u32)
    requires a / 4 == b / 4
    ensures WindowDelta(a) / 4 == WindowDelta(b) / 4
  {
    assert a < RANGE_OFFSET_START <==> b < RANGE_OFFSET_START;
    var k := if a < RANGE_OFFSET_START then (U32_LIMIT - RANGE_OFFSET_START) / 4 else -(RANGE_OFFSET_START / 4);
    assert WindowDelta(a) == a + 4 * k;
    assert WindowDelta(b) == b + 4 * k;
    DivAddMultiple(a, 4, k);
    DivAddMultiple(b, 4, k);
  }

  /** The two low bits of an offset never reach the ids: offsets inside the
      same dword hash alike, for every 32-bit offset. */
  lemma SameDwordSameIds(a: u32, b: u32)
    requires a / 4 == b / 4
    ensures CtxRangeId(a) == CtxRangeId(b) && CtxBlockId(a) == CtxBlockId(b)
  {
    HashArithmetic(a);
    HashArithmetic(b);
    SameDwordSameDelta(a, b);
    DivDiv(WindowDelta(a), 4, RANGE_DWORDS);
    DivDiv(WindowDelta(b), 4, RANGE_DWORDS);
  }

  /** The next dword register: inside a range it keeps the range id and has
      the next block id; after the last block of a range it starts the next
      range at block 0. */
  lemma NextDword(offset: u32)
    requires InWindow(offset) && InWindow(offset + 4)
    ensures CtxBlockId(offset) < RANGE_DWORDS - 1 ==>
      CtxRangeId(offset + 4) == CtxRangeId(offset) && CtxBlockId(offset + 4) == CtxBlockId(offset) + 1
    ensures CtxBlockId(offset) == RANGE_DWORDS - 1 ==>
      CtxRangeId(offset + 4) == CtxRangeId(offset) + 1 && CtxBlockId(offset + 4) == 0
  {
    InWindowIds(offset);
    InWindowIds(offset + 4);
    var delta := offset - RANGE_OFFSET_START;
    var dw := delta / 4;
    DivAddMultiple(delta, 4, 1);
    if dw % RANGE_DWORDS < RANGE_DWORDS - 1 {
      DivModUnique(dw + 1, RANGE_DWORDS, dw / RANGE_DWORDS, dw % RANGE_DWORDS + 1);
    } else {
      DivModUnique(dw + 1, RANGE_DWORDS, dw / RANGE_DWORDS + 1, 0);
    }
  }

  /** The `& 255` mask makes the hash periodic: an offset 256 ranges
      (512 KB) further on gets the same ids, so beyond the window it is
      aliased to a managed register. */
  lemma MaskAliasing(offset: u32)
    requires offset + 256 * RANGE_BYTES < U32_LIMIT
    ensures CtxRangeId(offset + 256 * RANGE_BYTES) == CtxRangeId(offset)
    ensures CtxBlockId(offset + 256 * RANGE_BYTES) == CtxBlockId(offset)
  {
    HashFloor(offset);
    HashFloor(offset + 256 * RANGE_BYTES);
    var x := offset - RANGE_OFFSET_START;
    DivAddMultiple(x, RANGE_BYTES, 256);
    DivAddMultiple(x / RANGE_BYTES, 256, 1);
    DivAddMultiple(x, 4, 256 * RANGE_DWORDS);
    DivAddMultiple(x / 4, RANGE_DWORDS, 256);
  }
}
