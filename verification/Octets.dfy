/** The unsigned octet moved by the drivers and codecs that do no bit arithmetic on their data. */
module Octets {
  newtype u8 = x: int | 0 <= x < 0x100

  /** The C cast (uint8_t)x of a non-negative value. */
  function Cast8(x: nat): u8 {
    (x % 0x100) as u8
  }

  /** The C shift x << n, wide enough not to lose bits. */
  function Shl(x: nat, n: nat): (r: nat)
    ensures x > 0 ==> r > 0
  {
    if n == 0 then x else 2 * Shl(x, n - 1)
  }

  /** The C shift x >> n of an unsigned value. */
  function Shr(x: nat, n: nat): nat {
    if n == 0 then x else Shr(x / 2, n - 1)
  }

  lemma {:induction false} ShrSplit(x: nat, m: nat, n: nat)
    ensures Shr(x, m + n) == Shr(Shr(x, m), n)
  {
    if m == 0 {
    } else {
      ShrSplit(x / 2, m - 1, n);
    }
  }

  /** The shifts by constants that the address bytes use, as divisions. */
  lemma ShrValues(x: nat)
    ensures Shr(x, 5) == x / 32 && Shr(x, 6) == x / 64 && Shr(x, 7) == x / 128 && Shr(x, 8) == x / 256
  {
    ShrByTwo(x);
    ShrSplit(x, 2, 2); ShrByTwo(x / 4);
    ShrSplit(x, 4, 1); ShrByTwo(x / 16);
    ShrSplit(x, 4, 2);
    ShrSplit(x, 6, 1); ShrByTwo(x / 64);
    ShrSplit(x, 6, 2);
  }

  lemma ShrByTwo(x: nat)
    ensures Shr(x, 1) == x / 2 && Shr(x, 2) == x / 4
  {
  }
}
