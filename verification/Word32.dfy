/**
 The unsigned 32-bit operations the two Base32 loops use, bit by bit as Rust
 defines them for `u32`: a left shift silently drops what leaves the top.
 `Cat` reads a number and the low bits of an accumulator as one bit string.
 */
module Word32 {

  const WORD := 0x1_0000_0000

  type u32 = x: nat | x < WORD

  function Doubled(x: nat, k: nat): (r: nat)
    decreases k, x
  {
    if k == 0 then x else 2 * Doubled(x, k - 1)
  }

  function Halved(x: nat, k: nat): (r: nat)
    ensures r <= x
    decreases k, x
  {
    if k == 0 then x else Halved(x / 2, k - 1)
  }

  function Shl(x: u32, k: nat): u32
    requires k < 32
  {
    Doubled(x, k) % WORD
  }

  function Shr(x: u32, k: nat): u32
    requires k < 32
  {
    Halved(x, k)
  }

  function And(x: nat, y: nat): (r: nat)
    ensures r <= x && r <= y
  {
    if x == 0 || y == 0 then 0 else 2 * And(x / 2, y / 2) + (if x % 2 == 1 && y % 2 == 1 then 1 else 0)
  }

  function Or(x: nat, y: nat): (r: nat)
    ensures r <= x + y
  {
    if x == 0 && y == 0 then 0 else 2 * Or(x / 2, y / 2) + (if x % 2 == 0 && y % 2 == 0 then 0 else 1)
  }

  /** The bits of `v` followed by the low `k` bits of `x`. */
  function Cat(v: nat, x: nat, k: nat): nat
    decreases k, x, v
  {
    if k == 0 then v else 2 * Cat(v, x / 2, k - 1) + x % 2
  }

  // ---- Facts about doubling and halving ----

  lemma {:induction false} DoubledTwice(x: nat, j: nat, k: nat)
    ensures Doubled(Doubled(x, j), k) == Doubled(x, j + k)
    decreases k
  {
    if k > 0 { DoubledTwice(x, j, k - 1); }
  }

  /** The shift amounts the loops use, as multiplications. */
  lemma DoubledValues(x: nat)
    ensures Doubled(x, 2) == 4 * x && Doubled(x, 5) == 32 * x && Doubled(x, 8) == 256 * x
    ensures Doubled(x, 32) == WORD * x
  {
    DoubledSmall(x);
    DoubledTwice(x, 8, 8);
    DoubledSmall(Doubled(x, 8));
    DoubledTwice(x, 16, 8);
    DoubledSmall(Doubled(x, 16));
    DoubledTwice(x, 24, 8);
    DoubledSmall(Doubled(x, 24));
  }

  lemma DoubledSmall(x: nat)
    ensures Doubled(x, 2) == 4 * x && Doubled(x, 5) == 32 * x && Doubled(x, 8) == 256 * x
  {
    assert Doubled(x, 1) == 2 * x;
    assert Doubled(x, 3) == 8 * x;
    assert Doubled(x, 4) == 16 * x;
    assert Doubled(x, 6) == 64 * x;
    assert Doubled(x, 7) == 128 * x;
  }

  /** Or-ing into k zero bits is addition. */
  lemma {:induction false} OrFillsZeroBits(x: nat, y: nat, k: nat)
    requires y < Doubled(1, k)
    ensures Or(Doubled(x, k), y) == Doubled(x, k) + y
    decreases k
  {
    if k == 0 { OrZero(x); } else { OrFillsZeroBits(x, y / 2, k - 1); }
  }

  lemma {:induction false} OrZero(x: nat)
    ensures Or(x, 0) == x
  {
    if x > 0 { OrZero(x / 2); }
  }

  // ---- Facts about bit strings ----

  /** Masking with 2^k - 1 picks the last k bits of a bit string. */
  lemma {:induction false} CatMask(v: nat, x: nat, k: nat, mask: nat)
    requires mask == Doubled(1, k) - 1
    ensures Cat(v, x, k) == Doubled(v, k) + And(x, mask)
    decreases k
  {
    if k > 0 {
      CatMask(v, x / 2, k - 1, mask / 2);
      assert mask == 2 * (mask / 2) + 1;
    }
  }

  lemma {:induction false} CatSplit(v: nat, x: nat, j: nat, k: nat)
    ensures Cat(v, x, j + k) == Cat(Cat(v, Halved(x, k), j), x, k)
    decreases k
  {
    if k > 0 { CatSplit(v, x / 2, j, k - 1); }
  }

  /** Bits above the ones read do not matter. */
  lemma {:induction false} CatForgetsHighBits(v: nat, x: nat, high: nat, m: nat, k: nat)
    requires k <= m
    ensures Cat(v, x + Doubled(high, m), k) == Cat(v, x, k)
    decreases k
  {
    if k > 0 {
      assert (x + Doubled(high, m)) / 2 == x / 2 + Doubled(high, m - 1);
      CatForgetsHighBits(v, x / 2, high, m - 1, k - 1);
    }
  }

  lemma {:induction false} HalvedInverse(x: nat, y: nat, n: nat)
    requires y < Doubled(1, n)
    ensures Halved(Doubled(x, n) + y, n) == x
    decreases n
  {
    if n > 0 {
      assert (Doubled(x, n) + y) / 2 == Doubled(x, n - 1) + y / 2;
      HalvedInverse(x, y / 2, n - 1);
    }
  }

  lemma {:induction false} CatOfSum(v: nat, x: nat, y: nat, n: nat)
    requires y < Doubled(1, n)
    ensures Cat(v, Doubled(x, n) + y, n) == Doubled(v, n) + y
    decreases n
  {
    if n > 0 {
      assert (Doubled(x, n) + y) / 2 == Doubled(x, n - 1) + y / 2;
      CatOfSum(v, x, y / 2, n - 1);
    }
  }

  /** The left shifts of the loops, with the factor each stands for. */
  predicate ShiftAmount(n: nat, factor: nat) {
    (n == 2 && factor == 4) || (n == 5 && factor == 32) || (n == 8 && factor == 256)
  }

  lemma DoubledIs(x: nat, n: nat, factor: nat)
    requires ShiftAmount(n, factor)
    ensures Doubled(x, n) == factor * x
  {
    DoubledValues(x);
  }

  /** What a 32-bit left shift keeps and what it loses. */
  lemma ShlSplits(buffer: u32, n: nat, factor: nat) returns (kept: nat, lost: nat)
    requires ShiftAmount(n, factor)
    ensures Shl(buffer, n) == Doubled(kept, n) <= WORD - factor
    ensures Doubled(buffer, n) == Doubled(kept, n) + WORD * lost
  {
    if factor == 4 { kept, lost := SplitBy4(buffer); }
    else if factor == 32 { kept, lost := SplitBy32(buffer); }
    else { kept, lost := SplitBy256(buffer); }
    DoubledIs(buffer, n, factor);
    DoubledIs(kept, n, factor);
  }

  lemma SplitBy4(x: u32) returns (kept: nat, lost: nat)
    ensures x * 4 == kept * 4 + WORD * lost && x * 4 % WORD == kept * 4 <= WORD - 4
  {
    kept, lost := x % 0x4000_0000, x / 0x4000_0000;
  }

  lemma SplitBy32(x: u32) returns (kept: nat, lost: nat)
    ensures x * 32 == kept * 32 + WORD * lost && x * 32 % WORD == kept * 32 <= WORD - 32
  {
    kept, lost := x % 0x800_0000, x / 0x800_0000;
  }

  lemma SplitBy256(x: u32) returns (kept: nat, lost: nat)
    ensures x * 256 == kept * 256 + WORD * lost && x * 256 % WORD == kept * 256 <= WORD - 256
  {
    kept, lost := x % 0x100_0000, x / 0x100_0000;
  }

  lemma CatForgetsWords(v: nat, x: nat, lost: nat, k: nat)
    requires k <= 32
    ensures Cat(v, x + WORD * lost, k) == Cat(v, x, k)
  {
    DoubledValues(lost);
    CatForgetsHighBits(v, x, lost, 32, k);
  }

  /** Appending `n` bits without a word size. */
  lemma CatAppend(v: nat, x: nat, bits: nat, y: nat, n: nat)
    requires y < Doubled(1, n)
    ensures Cat(v, Doubled(x, n) + y, bits + n) == Doubled(Cat(v, x, bits), n) + y
  {
    CatSplit(v, Doubled(x, n) + y, bits, n);
    HalvedInverse(x, y, n);
    CatOfSum(Cat(v, x, bits), x, y, n);
  }

  lemma ShiftWord(buffer: u32, y: nat, n: nat, factor: nat) returns (lost: nat)
    requires ShiftAmount(n, factor) && y < factor
    ensures Or(Shl(buffer, n), y) < WORD
    ensures Or(Shl(buffer, n), y) + WORD * lost == Doubled(buffer, n) + y
  {
    var kept;
    kept, lost := ShlSplits(buffer, n, factor);
    DoubledIs(1, n, factor);
    OrFillsZeroBits(kept, y, n);
  }

  /**
   Shifting `n` new bits into the accumulator appends them to the bit string,
   although the 32-bit shift loses bits at the top.
   */
  lemma ShiftIn(v: nat, buffer: u32, bits: nat, y: nat, n: nat, factor: nat)
    requires ShiftAmount(n, factor)
    requires y < factor && bits + n <= 32
    ensures Or(Shl(buffer, n), y) < WORD
    ensures Cat(v, Or(Shl(buffer, n), y), bits + n) == factor * Cat(v, buffer, bits) + y
  {
    var lost := ShiftWord(buffer, y, n, factor);
    CatForgetsWords(v, Or(Shl(buffer, n), y), lost, bits + n);
    DoubledIs(1, n, factor);
    CatAppend(v, buffer, bits, y, n);
    DoubledIs(Cat(v, buffer, bits), n, factor);
  }

  /** Taking the top `n` of the accumulator's bits moves them to the number in front. */
  lemma TakeOut(v: nat, buffer: u32, bits: nat, n: nat, factor: nat)
    requires ShiftAmount(n, factor) && bits < 32
    ensures Cat(v, buffer, bits + n) == Cat(factor * v + And(Shr(buffer, bits), factor - 1), buffer, bits)
  {
    DoubledIs(1, n, factor);
    DoubledIs(v, n, factor);
    CatSplit(v, buffer, n, bits);
    CatMask(v, Shr(buffer, bits), n, factor - 1);
  }
}
