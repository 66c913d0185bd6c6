/** Ledger flags: the test the code makes, and what it means for a number to have a flag. */
module Flags {
  import opened Arith

  /** `flags & mask != 0`, for a mask of one bit. */
  predicate Bit(flags: int, mask: int)
    requires mask > 0
  {
    flags / mask % 2 == 1
  }

  /** `flags` is an odd number of times the mask, and then less than the mask. */
  predicate Splits(flags: int, mask: int, q: int, r: int) {
    0 <= r < mask && flags == (2 * q + 1) * mask + r
  }

  /** The bit that the mask stands for is one of those that add up to `flags`. */
  ghost predicate HasFlag(flags: int, mask: int) {
    exists q: int, r: int :: Splits(flags, mask, q, r)
  }

  lemma BitIff(flags: int, mask: int)
    requires mask > 0
    ensures Bit(flags, mask) <==> HasFlag(flags, mask)
  {
    DivMod(flags, mask);
    if Bit(flags, mask) {
      var q := flags / mask / 2;
      assert flags / mask == 2 * q + 1;
      assert Splits(flags, mask, q, flags % mask);
    }
    if q: int, r: int :| Splits(flags, mask, q, r) {
      DivModIs(flags, mask, 2 * q + 1, r);
    }
  }
}
