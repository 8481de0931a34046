/** Bitwise operations of a 64-bit word. */
module Bits {
  import opened Bytes

  const WORD := 0x1_0000_0000_0000_0000

  function Pow2(n: nat): (p: nat)
    ensures p >= 1
  {
    if n == 0 then 1 else 2 * Pow2(n - 1)
  }

  /** `m & (1 << d) != 0` */
  predicate TestBit(m: nat, d: nat) {
    if d == 0 then m % 2 == 1 else TestBit(m / 2, d - 1)
  }

  /** `m << s` on u64: s doublings, each losing the top bit. */
  function Shl(m: u64, s: nat): u64
    decreases s
  {
    if s == 0 then m else Shl((2 * m) % WORD, s - 1)
  }

  /** `m | (1 << d)` */
  function SetBit(m: nat, d: nat): nat {
    if d == 0 then m - m % 2 + 1 else m % 2 + 2 * SetBit(m / 2, d - 1)
  }

  lemma {:induction false} SetBitBits(m: nat, e: nat, d: nat)
    ensures TestBit(SetBit(m, e), d) == (d == e || TestBit(m, d))
  {
    if d > 0 && e > 0 { SetBitBits(m / 2, e - 1, d - 1); }
  }

  lemma {:induction false} SetBitFits(m: nat, e: nat, n: nat)
    requires m < Pow2(n) && e < n
    ensures SetBit(m, e) < Pow2(n)
  {
    assert Pow2(n) == 2 * Pow2(n - 1);
    if e > 0 {
      assert m / 2 < Pow2(n - 1);
      SetBitFits(m / 2, e - 1, n - 1);
    }
  }

  lemma {:induction false} DropTopBit(m: nat, n: nat, d: nat)
    requires m >= Pow2(n) && d < n
    ensures TestBit(m - Pow2(n), d) == TestBit(m, d)
  {
    if d > 0 {
      DropTopBit(m / 2, n - 1, d - 1);
      assert (m - Pow2(n)) / 2 == m / 2 - Pow2(n - 1);
    }
  }

  lemma Pow2Byte(n: nat)
    ensures Pow2(n + 7) == 128 * Pow2(n) && Pow2(n + 8) == 256 * Pow2(n)
  {
    assert Pow2(n + 2) == 4 * Pow2(n);
    assert Pow2(n + 4) == 4 * Pow2(n + 2);
    assert Pow2(n + 6) == 4 * Pow2(n + 4);
  }

  lemma Pow2Zero()
    ensures Pow2(0) == 1
  {
  }

  lemma WordIsPow2()
    ensures Pow2(63) == WORD / 2 && Pow2(64) == WORD
  {
    hide Pow2;
    assert Pow2(0) == 1 by { Pow2Zero(); }
    Pow2Byte(0); Pow2Byte(8); Pow2Byte(16); Pow2Byte(24);
    Pow2Byte(32); Pow2Byte(40); Pow2Byte(48); Pow2Byte(56);
  }

  lemma DoubleBits(m: u64, d: nat)
    requires d < 64
    ensures TestBit((2 * m) % WORD, d) == (d >= 1 && TestBit(m, d - 1))
  {
    if d >= 1 && m >= WORD / 2 {
      WordIsPow2();
      DropTopBit(m, 63, d - 1);
    }
  }

  lemma {:induction false} ShlBits(m: u64, s: nat, d: nat)
    requires d < 64
    ensures TestBit(Shl(m, s), d) == (d >= s && TestBit(m, d - s))
    decreases s
  {
    if s > 0 {
      ShlBits((2 * m) % WORD, s - 1, d);
      if d >= s - 1 { DoubleBits(m, d - (s - 1)); }
    }
  }
}
